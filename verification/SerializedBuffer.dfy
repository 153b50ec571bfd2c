/**
 SerializedLogBuffer: eight chunk lists, their size limits and statistics, and the readers attached to
 them. Each public method is one lock-protected step; FlushTo is cut at the point where the daemon
 drops the lock to write an entry out, so any other step may come between two of its calls.
 */
module SerializedBuffer {
  import opened Bytes
  import opened EntryLayout
  import opened SerializedChunk
  import opened SerializedLists
  import opened FlatReader
  import opened SerializedWiring
  import opened SerializedFlushToState
  import S = LogStats

  datatype LogWithId = LogWithId(logId: LogId, entry: Entry)

  /** A watched entry that a flush with this filter sends out. */
  predicate Sends(r: FlushToState, filter: (LogId, Entry) -> FilterResult, id: LogId, e: Entry)
  {
    id in r.mask && Visible(r.writer, e) && filter(id, e) == Write
  }

  /** Between `lo` and `hi` the logs hold nothing to send. */
  ghost predicate NoneToSend(flats: seq<seq<Entry>>, r: FlushToState, filter: (LogId, Entry) -> FilterResult, lo: nat, hi: nat)
    requires |flats| == LOG_ID_MAX
  {
    forall id: LogId, i :: 0 <= i < |flats[id]| && lo <= flats[id][i].sequence < hi ==> !Sends(r, filter, id, flats[id][i])
  }

  /** The filter stopped the flush at the entry before `start`, and nothing from `lo` up to it was to be sent. */
  ghost predicate StoppedAt(flats: seq<seq<Entry>>, r: FlushToState, filter: (LogId, Entry) -> FilterResult, lo: nat, start: nat)
    requires |flats| == LOG_ID_MAX
  {
    exists id: LogId, e :: e in flats[id] && id in r.mask && Visible(r.writer, e) && filter(id, e) == Stop &&
      start == e.sequence + 1 && NoneToSend(flats, r, filter, lo, e.sequence)
  }

  /** A reader at `start` is to be sent the entry it was writing once more: a clear has left it and the filter lets it through. */
  ghost predicate SentAgain(flats: seq<seq<Entry>>, r: FlushToState, filter: (LogId, Entry) -> FilterResult, start: nat, h: History)
    requires |flats| == LOG_ID_MAX
  {
    h.replay && exists id: LogId, e :: e in flats[id] && e.sequence == start && Sends(r, filter, id, e)
  }

  /** An entry sent was sent before exactly in that case. */
  lemma SentAgainIff(flats: seq<seq<Entry>>, r: FlushToState, filter: (LogId, Entry) -> FilterResult, start: nat, h: History, id: LogId, e: Entry)
    requires |flats| == LOG_ID_MAX && e in flats[id] && Sends(r, filter, id, e) && e.sequence >= NextFrom(flats, r.mask, start, h)
    requires NoneToSend(flats, r, filter, NextFrom(flats, r.mask, start, h), e.sequence)
    requires (forall x :: x in h.delivered ==> x < Passed(start, h)) && (h.mid ==> start in h.delivered) && (h.replay ==> h.mid)
    ensures e.sequence in h.delivered <==> SentAgain(flats, r, filter, start, h)
    ensures SentAgain(flats, r, filter, start, h) ==> e.sequence == start
  {
    if SentAgain(flats, r, filter, start, h) {
      var b: LogId, x :| x in flats[b] && x.sequence == start && Sends(r, filter, b, x);
      var i :| 0 <= i < |flats[b]| && flats[b][i] == x;
      assert Rereads(flats, r.mask, start, h);
    }
  }

  lemma NotSentAgain(flats: seq<seq<Entry>>, r: FlushToState, filter: (LogId, Entry) -> FilterResult, start: nat, h: History, hi: nat)
    requires |flats| == LOG_ID_MAX && (h.replay ==> start < hi) && NoneToSend(flats, r, filter, NextFrom(flats, r.mask, start, h), hi)
    ensures !SentAgain(flats, r, filter, start, h)
  {
  }

  /** `out` is, in order, everything to send numbered from `lo` up to but not including `hi`. */
  ghost predicate SentUpTo(flats: seq<seq<Entry>>, r: FlushToState, filter: (LogId, Entry) -> FilterResult, lo: nat, hi: nat, out: seq<LogWithId>)
    requires |flats| == LOG_ID_MAX
  {
    && (forall i, j :: 0 <= i < j < |out| ==> out[i].entry.sequence < out[j].entry.sequence)
    && (forall x :: x in out ==> x.entry in flats[x.logId] && lo <= x.entry.sequence < hi && Sends(r, filter, x.logId, x.entry))
    && (forall id: LogId, i :: 0 <= i < |flats[id]| && lo <= flats[id][i].sequence < hi && Sends(r, filter, id, flats[id][i]) ==>
          LogWithId(id, flats[id][i]) in out)
  }

  lemma NoneYet(flats: seq<seq<Entry>>, r: FlushToState, filter: (LogId, Entry) -> FilterResult, lo: nat)
    requires |flats| == LOG_ID_MAX
    ensures SentUpTo(flats, r, filter, lo, lo, [])
  {
  }

  lemma SentOneMore(flats: seq<seq<Entry>>, next: nat, r: FlushToState, filter: (LogId, Entry) -> FilterResult, lo: nat, mid: nat,
                    out: seq<LogWithId>, x: LogWithId)
    requires Ordered(flats, next) && SentUpTo(flats, r, filter, lo, mid, out) && lo <= mid <= x.entry.sequence
    requires NoneToSend(flats, r, filter, mid, x.entry.sequence)
    requires x.entry in flats[x.logId] && Sends(r, filter, x.logId, x.entry)
    ensures SentUpTo(flats, r, filter, lo, x.entry.sequence + 1, out + [x])
  {
    var more := out + [x];
    forall i, j | 0 <= i < j < |more|
      ensures more[i].entry.sequence < more[j].entry.sequence
    {
      assert out[i] in out;
    }
    forall id: LogId, i | 0 <= i < |flats[id]| && lo <= flats[id][i].sequence < x.entry.sequence + 1 && Sends(r, filter, id, flats[id][i])
      ensures LogWithId(id, flats[id][i]) in more
    {
      if flats[id][i].sequence == x.entry.sequence {
        SameNumber(flats, next, x.logId, x.entry, id, i);
        assert more[|out|] == x;
      } else {
        assert flats[id][i].sequence < mid;
      }
    }
  }

  lemma SentAll(flats: seq<seq<Entry>>, r: FlushToState, filter: (LogId, Entry) -> FilterResult, lo: nat, mid: nat, hi: nat, out: seq<LogWithId>)
    requires |flats| == LOG_ID_MAX && SentUpTo(flats, r, filter, lo, mid, out) && NoneToSend(flats, r, filter, mid, hi)
    requires forall id: LogId, i :: id in r.mask && 0 <= i < |flats[id]| ==> flats[id][i].sequence < hi
    ensures forall id: LogId, e :: LogWithId(id, e) in out <==> e in flats[id] && e.sequence >= lo && Sends(r, filter, id, e)
  {
    forall id: LogId, e
      ensures LogWithId(id, e) in out <==> e in flats[id] && e.sequence >= lo && Sends(r, filter, id, e)
    {
      if e in flats[id] && e.sequence >= lo && Sends(r, filter, id, e) {
        var i :| 0 <= i < |flats[id]| && flats[id][i] == e;
        assert flats[id][i].sequence < hi;
      }
    }
  }

  lemma SameNumber(flats: seq<seq<Entry>>, next: nat, id: LogId, e: Entry, b: LogId, j: nat)
    requires Ordered(flats, next) && e in flats[id] && j < |flats[b]| && flats[b][j].sequence == e.sequence
    ensures b == id && flats[b][j] == e
  {
    var i :| 0 <= i < |flats[id]| && flats[id][i] == e;
    assert Sorted(flats[id]);
  }

  predicate FromUid<R>(c: Chunk<R>, uid: uint32) { exists i :: 0 <= i < |c.entries| && c.entries[i].uid == uid }

  /** A list being refilled behind its first `kept` chunks: only its back chunk is writable, and within the limit. */
  ghost predicate Reflowed<R>(cs: seq<Chunk<R>>, kept: nat, maxSize: nat, engine: Engine)
    ensures Reflowed(cs, kept, maxSize, engine) ==> kept < |cs|
  {
    && Shaped(cs) && AllPacked(cs, engine) && NobodyAttached(cs) && kept < |cs| && ChunkSize(cs[|cs| - 1]) <= maxSize
    && forall j :: kept <= j < |cs| ==> cs[j].capacity == maxSize / 4
  }

  /**
   The first j chunks of `cs` without the entries of `uid`. Chunks before the first affected one are
   the same but for their readers; from the first affected one on they are refilled.
   */
  ghost predicate Rebuilt<R>(cs: seq<Chunk<R>>, j: nat, uid: uint32, maxSize: nat, engine: Engine, logs: seq<Chunk<R>>, found: bool, kept: nat)
    requires j <= |cs|
  {
    && Flat(logs) == Others(Flat(cs[..j]), uid)
    && kept <= j && (forall i :: 0 <= i < kept ==> !FromUid(cs[i], uid))
    && (!found ==> kept == j && logs == DesertedAll(cs[..j]))
    && (found ==> kept < j && FromUid(cs[kept], uid) && Reflowed(logs, kept, maxSize, engine) && logs[..kept] == DesertedAll(cs[..kept]))
  }

  /**
   A log has taken an entry: it goes last, `pruned` of the oldest entries are gone with the first n chunks, the
   shortest run of chunks that brings the log within its limit, and what is left uses no more bytes than that.
   */
  ghost predicate TookEntry<R>(cs: seq<Chunk<R>>, ds: seq<Chunk<R>>, pruned: nat, n: nat, e: Entry, limit: nat, engine: Engine)
  {
    && pruned <= |Flat(cs)| && Flat(ds) == Flat(cs)[pruned..] + [e]
    && SizeUsed(ds) <= limit && UsedBytes(ds, engine) <= limit
    && var all := Append(cs, limit, e, engine); PrunedTo(all, n, limit) && n <= |all| && ds == all[n..]
  }

  class LogStatistics {
    const trackTotalSize: bool
    var counters: seq<S.Counters>

    constructor (trackTotalSize: bool)
      ensures counters == seq(LOG_ID_MAX, i => S.ZERO) && this.trackTotalSize == trackTotalSize
    {
      this.trackTotalSize := trackTotalSize;
      counters := seq(LOG_ID_MAX, i => S.ZERO);
    }

    ghost predicate AgreesOn(id: LogId, es: seq<Entry>)
      reads this
    {
      |counters| == LOG_ID_MAX && S.Agrees(counters[id], S.CountedAll(es, trackTotalSize), id == LOG_ID_KERNEL)
    }

    method AddTotal(id: LogId, len: nat, ghost stored: seq<Entry>)
      requires AgreesOn(id, stored)
      modifies this
      ensures AgreesOn(id, stored)
      ensures counters == old(counters)[id := S.AddTotal(old(counters)[id], len)]
    {
      counters := counters[id := S.AddTotal(counters[id], len)];
    }

    method Add(id: LogId, e: Entry, ghost stored: seq<Entry>)
      requires AgreesOn(id, stored)
      modifies this
      ensures AgreesOn(id, stored + [e])
      ensures counters == old(counters)[id := S.Add(old(counters)[id], S.Counted(e, trackTotalSize), id == LOG_ID_KERNEL)]
    {
      S.CountOneMore(counters[id], stored, e, id == LOG_ID_KERNEL, trackTotalSize);
      counters := counters[id := S.Add(counters[id], S.Counted(e, trackTotalSize), id == LOG_ID_KERNEL)];
    }

    method Subtract(id: LogId, e: Entry, ghost before: seq<Entry>, ghost after: seq<Entry>)
      requires AgreesOn(id, before + [e] + after)
      modifies this
      ensures AgreesOn(id, before + after)
      ensures counters == old(counters)[id := S.Subtract(old(counters)[id], S.Counted(e, trackTotalSize), id == LOG_ID_KERNEL)]
    {
      S.CountOneLess(counters[id], before, e, after, id == LOG_ID_KERNEL, trackTotalSize);
      counters := counters[id := S.Subtract(counters[id], S.Counted(e, trackTotalSize), id == LOG_ID_KERNEL)];
    }
  }

  class SerializedLogBuffer {
    const engine: Engine
    const lists: LogLists
    const stats: LogStatistics
    var maxSize: seq<nat>
    var sequence: nat
    var readers: set<FlushToState>

    /** Numbering, wiring and reader progress; everything but the size limits and statistics. */
    ghost predicate Sound()
      reads this, lists, readers
      ensures Sound() ==> |lists.logs| == LOG_ID_MAX
    {
      && engine.Lossless() && sequence <= UINT64_MAX
      && Consistent(lists, readers)
      && Ordered(FlatsOf(lists.logs), sequence)
      && (forall r :: r in readers ==> OnTrack(r))
    }

    ghost predicate OnTrack(r: FlushToState)
      reads this, lists, r, r.lists
    {
      r.lists == lists && r.Settled() && Tracks(FlatsOf(lists.logs), sequence, r.writer, r.Cur(), r.history)
    }

    /** The limit is a valid one and the back chunk alone stays within it; every finished chunk has been compressed. */
    ghost predicate Fits(id: LogId)
      reads this, lists
    {
      && |maxSize| == LOG_ID_MAX && |lists.logs| == LOG_ID_MAX && ValidSize(maxSize[id])
      && var cs := lists.logs[id].chunks; AllPacked(cs, engine) && (cs != [] ==> ChunkSize(cs[|cs| - 1]) <= maxSize[id])
    }

    /** Whenever the lock is free, a reader in the middle of a flush is writing the entry at its start. */
    ghost predicate Writing()
      reads this, readers
    {
      forall r :: r in readers && r.history.mid ==> r.start in r.history.delivered
    }

    /** What holds whenever the lock is free. */
    ghost predicate Valid()
      reads this, lists, stats, readers
    {
      && Sound() && Writing()
      && |maxSize| == LOG_ID_MAX
      && (forall id: LogId :: Fits(id))
      && (forall id: LogId :: stats.AgreesOn(id, Flat(lists.logs[id].chunks)))
    }

    ghost function EntriesOf(id: LogId): seq<Entry>
      requires |lists.logs| == LOG_ID_MAX
      reads this, lists
    {
      Flat(lists.logs[id].chunks)
    }

    /** Init: each log takes its configured size if that is valid, the minimum otherwise. */
    constructor (engine: Engine, stats: LogStatistics, configured: seq<nat>)
      requires engine.Lossless() && |configured| == LOG_ID_MAX
      requires stats.counters == seq(LOG_ID_MAX, i => S.ZERO)
      ensures Valid() && fresh(lists) && readers == {} && sequence == 1 && this.stats == stats && this.engine == engine
      ensures forall id: LogId :: maxSize[id] == if MIN_BUFFER <= configured[id] <= MAX_BUFFER then configured[id] else MIN_BUFFER
      ensures forall id: LogId :: EntriesOf(id) == []
    {
      this.engine, this.stats := engine, stats;
      lists := new LogLists();
      maxSize := seq(LOG_ID_MAX, i requires 0 <= i < LOG_ID_MAX =>
        if ValidSize(configured[i]) then configured[i] else MIN_BUFFER);
      sequence := 1;
      readers := {};
      new;
      NothingYet(lists.logs);
      hide Wired, Flat, Ordered;
      assert Views({}) == map[];
    }

    lemma NothingYet(logs: seq<LogList<FlushToState>>)
      requires logs == seq(LOG_ID_MAX, i => LogList(0, []))
      ensures Wired(logs, map[]) && Ordered(FlatsOf(logs), 1) && forall id: LogId :: Flat(logs[id].chunks) == []
    {
      assert forall id: LogId :: CursorsIn<FlushToState>(map[], id) == map[];
    }

    // ---- Detaching the readers of one chunk ----

    /** SerializedLogChunk::NotifyReadersOfPrune for chunk j of log `id`. */
    method NotifyReadersOfPrune(id: LogId, j: nat)
      requires Consistent(lists, readers) && j < |lists.logs[id].chunks|
      modifies lists, readers`positions, readers`needed
      ensures Consistent(lists, readers) && SameContents(old(lists.logs), lists.logs)
      ensures var l := old(lists.logs)[id];
        lists.logs == old(lists.logs)[id := l.(chunks := l.chunks[j := Deserted(l.chunks[j])])]
      ensures forall r :: r in readers ==>
        r.positions == (if r in old(lists.logs)[id].chunks[j].readers then old(r.positions) - {id} else old(r.positions))
    {
      hide Wired, Flat, Shaped, Flags, SameEntries, WithReaders, Linked, Detach, WithChunk;
      WiredOne(lists.logs, Views(readers), id);
      SameContentsReflexive(lists.logs);
      ghost var logs0, l0 := lists.logs, lists.logs[id];
      var rs := lists.logs[id].chunks[j].readers;   // a copy: the readers detach themselves below
      LinkedChunk(l0, CursorsIn(Views(readers), id), j);
      forall r | r in rs ensures r in readers { LinkedReader(l0, CursorsIn(Views(readers), id), j, r); }
      WithOwnReaders(l0, j);
      assert rs[0..] == rs && logs0[id := l0] == logs0;
      for k := 0 to |rs|
        invariant Consistent(lists, readers) && SameContents(logs0, lists.logs)
        invariant lists.logs == logs0[id := WithReaders(l0, j, rs[k..])]
        invariant forall r :: r in readers ==> r.positions == (if r in rs[..k] then old(r.positions) - {id} else old(r.positions))
      {
        var reader := rs[k];
        assert reader in rs;
        assert reader !in rs[..k] by { DistinctAt(rs, k); }
        assert rs[k..][0] == reader && rs[k..][1..] == rs[k + 1..];
        assert rs[..k + 1] == rs[..k] + [reader];
        NotifyOne(id, j, l0, rs[k..], logs0, reader);
      }
      assert rs[..|rs|] == rs && rs[|rs|..] == [];
      DesertedReaders(l0, j);
    }

    /** One reader of the copied list gives its cursor up. */
    method NotifyOne(id: LogId, ghost j: nat, ghost l0: LogList<FlushToState>, ghost rest: seq<FlushToState>,
                     ghost logs0: seq<LogList<FlushToState>>, reader: FlushToState)
      requires Consistent(lists, readers) && SameContents(logs0, lists.logs) && j < |l0.chunks| && rest != [] && reader == rest[0]
      requires lists.logs == logs0[id := WithReaders(l0, j, rest)]
      modifies lists, reader`positions, reader`needed
      ensures Consistent(lists, readers) && SameContents(logs0, lists.logs)
      ensures lists.logs == logs0[id := WithReaders(l0, j, rest[1..])]
      ensures reader in readers && id in old(reader.positions)
      ensures reader.positions == old(reader.positions) - {id} && reader.needed == old(reader.needed) + {id}
    {
      hide Wired, Flat, Shaped, Flags, SameEntries, Linked;
      ghost var logs, l := lists.logs, lists.logs[id];
      WiredOne(lists.logs, Views(readers), id);
      assert l == WithReaders(l0, j, rest) && reader in l.chunks[j].readers;
      LinkedReader(l, CursorsIn(Views(readers), id), j, reader);
      assert reader in readers && id in reader.positions && reader.positions[id].chunk == l.base + j;
      DetachFirst(l0, j, rest, reader.positions[id]);
      reader.Prune(id, readers);
      SameContentsTransitive(logs0, logs, lists.logs);
    }

    lemma DistinctAt(s: seq<FlushToState>, k: nat)
      requires Distinct(s) && k < |s|
      ensures s[k] !in s[..k]
    {
      var x := s[k];
      assert s == s[..k] + [x] + s[k + 1..];
      assert multiset(s) == multiset(s[..k]) + multiset{x} + multiset(s[k + 1..]);
      assert x in s && multiset(s)[x] == 1;
    }

    // ---- Erasing chunks from the front ----

    /** RemoveChunkFromStats: the chunk is held open while its entries are counted out. */
    method RemoveChunkFromStats(id: LogId, chunk: Chunk<FlushToState>, ghost rest: seq<Entry>)
      requires stats.AgreesOn(id, chunk.entries + rest)
      modifies stats
      ensures stats.AgreesOn(id, rest)
      ensures S.OnlyThis(old(stats.counters), stats.counters, id)
    {
      var held := chunk.(refCount := chunk.refCount + 1);
      assert Accessible(held);
      var es := held.entries;
      for i := 0 to |es|
        invariant stats.AgreesOn(id, es[i..] + rest)
        invariant S.OnlyThis(old(stats.counters), stats.counters, id)
      {
        assert es[i..] + rest == [] + [es[i]] + (es[i + 1..] + rest);
        stats.Subtract(id, es[i], [], es[i + 1..] + rest);
        assert [] + (es[i + 1..] + rest) == es[i + 1..] + rest;
      }
      assert es[|es|..] + rest == rest;
    }

    /** Erases the front chunk of log `id` after its readers have let go of it. */
    method PruneFront(id: LogId)
      requires Sound() && lists.logs[id].chunks != [] && stats.AgreesOn(id, EntriesOf(id))
      modifies lists, stats, readers`positions, readers`needed
      ensures Sound() && stats.AgreesOn(id, EntriesOf(id))
      ensures S.OnlyThis(old(stats.counters), stats.counters, id)
      ensures var l := old(lists.logs)[id]; lists.logs == old(lists.logs)[id := LogList(l.base + 1, l.chunks[1..])]
    {
      hide Wired, Flat, Tracks, Ordered, Shaped, Linked, SameEntries, At, ValidPos, SameContents, S.Agrees, Placed, OnTrack;
      ghost var logs0, rs0 := lists.logs, Views(readers);
      AllPlaced();
      FrontOfFlat(logs0[id].chunks);
      ReleaseFront(id);
      EraseFront(id, logs0, rs0);
    }

    /** Where each reader is. */
    lemma AllPlaced()
      requires Sound()
      ensures forall r :: r in readers ==>
        && r.lists == lists && Placed(lists.logs, r.View())
        && Tracks(FlatsOf(lists.logs), sequence, r.writer, Cursors(r.mask, r.start, AtOf(lists.logs, r.View())), r.history)
    {
      hide Tracks, Flat, Ordered;
      forall r | r in readers ensures OnTrack(r) { }
    }

    /** The readers of the front chunk let go of it and its entries are counted out. */
    method ReleaseFront(id: LogId)
      requires Consistent(lists, readers) && lists.logs[id].chunks != [] && stats.AgreesOn(id, EntriesOf(id))
      modifies lists, stats, readers`positions, readers`needed
      ensures Consistent(lists, readers) && SameContents(old(lists.logs), lists.logs)
      ensures var l := old(lists.logs)[id]; lists.logs == old(lists.logs)[id := l.(chunks := l.chunks[0 := Deserted(l.chunks[0])])]
      ensures stats.AgreesOn(id, Flat(old(lists.logs)[id].chunks[1..]))
      ensures S.OnlyThis(old(stats.counters), stats.counters, id)
      ensures forall r :: r in readers ==>
        r.positions == (if r in old(lists.logs)[id].chunks[0].readers then old(r.positions) - {id} else old(r.positions))
    {
      hide Wired, Flat, SameContents;
      WiredOne(lists.logs, Views(readers), id);
      FrontOfFlat(lists.logs[id].chunks);
      ghost var rest := Flat(lists.logs[id].chunks[1..]);
      NotifyReadersOfPrune(id, 0);
      RemoveChunkFromStats(id, lists.logs[id].chunks[0], rest);
    }

    /** Erases a front chunk nobody is attached to any more; logs0 and rs0 are from before they detached. */
    method EraseFront(id: LogId, ghost logs0: seq<LogList<FlushToState>>, ghost rs0: map<FlushToState, Reader>)
      requires Consistent(lists, readers) && Wired(logs0, rs0) && rs0.Keys == readers && SameContents(logs0, lists.logs)
      requires |logs0| == LOG_ID_MAX && Ordered(FlatsOf(logs0), sequence)
      requires logs0[id].chunks != [] && lists.logs[id].chunks != [] && lists.logs[id].chunks[0] == Deserted(logs0[id].chunks[0])
      requires forall r :: r in readers ==>
        r.positions == (if r in logs0[id].chunks[0].readers then rs0[r].positions - {id} else rs0[r].positions)
      requires forall r :: r in readers ==>
        && r.lists == lists && Placed(logs0, rs0[r])
        && Tracks(FlatsOf(logs0), sequence, r.writer, Cursors(r.mask, r.start, AtOf(logs0, rs0[r])), r.history)
      modifies lists
      ensures Consistent(lists, readers)
      ensures forall r :: r in readers ==> OnTrack(r)
      ensures var l := old(lists.logs)[id]; lists.logs == old(lists.logs)[id := LogList(l.base + 1, l.chunks[1..])]
      ensures |lists.logs| == LOG_ID_MAX && Ordered(FlatsOf(lists.logs), sequence)
    {
      hide Wired, Flat, Tracks, SameEntries, At, ValidPos, SameContents, Ordered;
      ghost var logs1, rs1 := lists.logs, Views(readers);
      WiredOne(logs1, rs1, id);
      SameContentsFlats(logs0, logs1);
      var l := lists.logs[id];
      assert l.chunks[0].refCount == 0;   // CHECK_EQ(reader_ref_count_, 0U) in the destructor
      PopWired(logs1, rs1, id, LogList(l.base + 1, l.chunks[1..]));
      lists.logs := lists.logs[id := LogList(l.base + 1, l.chunks[1..])];
      PruneOrdered(FlatsOf(logs1), sequence, id, |l.chunks[0].entries|);
      assert Views(readers) == rs1;
      forall r | r in readers
        ensures OnTrack(r)
      {
        OnTrackAfterPop(r, logs0, logs1, rs0, rs1, id);
      }
    }

    /** One reader, from before its chunk's readers were detached (logs0, rs0) to after the chunk is gone. */
    lemma OnTrackAfterPop(r: FlushToState, logs0: seq<LogList<FlushToState>>, logs1: seq<LogList<FlushToState>>,
                          rs0: map<FlushToState, Reader>, rs1: map<FlushToState, Reader>, id: LogId)
      requires Wired(logs0, rs0) && Wired(logs1, rs1) && Wired(lists.logs, rs1) && SameContents(logs0, logs1)
      requires logs1[id].chunks != [] && logs1[id].chunks[0].readers == []
      requires lists.logs == logs1[id := LogList(logs1[id].base + 1, logs1[id].chunks[1..])]
      requires r in rs0 && r in rs1 && rs1[r] == r.View() && r.lists == lists
      requires if r in logs0[id].chunks[0].readers then rs1[r].positions == rs0[r].positions - {id}
               else rs1[r].positions == rs0[r].positions
      requires Placed(logs0, rs0[r]) && Tracks(FlatsOf(logs0), sequence, r.writer, Cursors(r.mask, r.start, AtOf(logs0, rs0[r])), r.history)
      ensures OnTrack(r)
    {
      hide Wired, Flat, Tracks, At, ValidPos;
      ReaderAfterPop(logs0, logs1, lists.logs, rs0, rs1, r, id);
      SameContentsFlats(logs0, logs1);
      PopWired(logs1, rs1, id, lists.logs[id]);
      PoppedTracks(FlatsOf(logs0), sequence, r.writer, Cursors(r.mask, r.start, AtOf(logs0, rs0[r])), r.history, id,
                   |logs0[id].chunks[0].entries|, AtOf(lists.logs, rs1[r]), r in logs0[id].chunks[0].readers);
    }

    /** Erases the shortest non-empty run of front chunks whose sizes add up to at least `bytesToFree`, or all of them. */
    method Prune(id: LogId, bytesToFree: nat) returns (ghost n: nat)
      requires Sound() && stats.AgreesOn(id, EntriesOf(id))
      modifies lists, stats, readers`positions, readers`needed
      ensures Sound() && stats.AgreesOn(id, EntriesOf(id))
      ensures S.OnlyThis(old(stats.counters), stats.counters, id)
      ensures var l := old(lists.logs)[id];
        && n <= |l.chunks| && lists.logs == old(lists.logs)[id := LogList(l.base + n, l.chunks[n..])]
        && ShortestPrefix(l.chunks, n, bytesToFree)
    {
      hide Sound, S.Agrees, Flat;
      ghost var l0, logs0 := lists.logs[id], lists.logs;
      n := 0;
      var toFree := bytesToFree;
      assert l0.chunks[0..] == l0.chunks && logs0[id := l0] == logs0 && l0.chunks[..0] == [];
      while |lists.logs[id].chunks| != 0
        invariant Sound() && |lists.logs| == LOG_ID_MAX && stats.AgreesOn(id, EntriesOf(id))
        invariant S.OnlyThis(old(stats.counters), stats.counters, id)
        invariant n <= |l0.chunks| && lists.logs == logs0[id := LogList(l0.base + n, l0.chunks[n..])]
        invariant toFree + SizeUsed(l0.chunks[..n]) == bytesToFree && (n > 0 ==> toFree > 0)
        invariant forall m :: 1 <= m < n ==> SizeUsed(l0.chunks[..m]) < bytesToFree
        decreases |lists.logs[id].chunks|
      {
        var bufferSize := ChunkSize(lists.logs[id].chunks[0]);
        PruneFront(id);
        assert l0.chunks[..n + 1] == l0.chunks[..n] + [l0.chunks[n]];
        SizeUsedConcat(l0.chunks[..n], [l0.chunks[n]]);
        assert [l0.chunks[n]][1..] == [];
        n := n + 1;
        if bufferSize >= toFree {
          return;
        }
        toFree := toFree - bufferSize;
      }
    }

    method GetSizeUsed(id: LogId) returns (totalSize: nat)
      requires |lists.logs| == LOG_ID_MAX
      ensures totalSize == SizeUsed(lists.logs[id].chunks)
      ensures engine.Lossless() && AllPacked(lists.logs[id].chunks, engine) ==> totalSize == UsedBytes(lists.logs[id].chunks, engine)
    {
      totalSize := 0;
      var cs := lists.logs[id].chunks;
      for i := 0 to |cs|
        invariant totalSize == SizeUsed(cs[..i])
      {
        assert cs[..i + 1] == cs[..i] + [cs[i]] && [cs[i]][1..] == [];
        SizeUsedConcat(cs[..i], [cs[i]]);
        totalSize := totalSize + ChunkSize(cs[i]);
      }
      assert cs[..|cs|] == cs;
      if engine.Lossless() && AllPacked(cs, engine) { SizeIsBytes(cs, engine); }
    }

    /** Brings log `id` within its limit; a back chunk that fits on its own is never erased. */
    method MaybePrune(id: LogId) returns (ghost n: nat)
      requires Sound() && stats.AgreesOn(id, EntriesOf(id)) && |maxSize| == LOG_ID_MAX
      modifies lists, stats, readers`positions, readers`needed
      ensures Sound() && stats.AgreesOn(id, EntriesOf(id))
      ensures S.OnlyThis(old(stats.counters), stats.counters, id)
      ensures var l := old(lists.logs)[id];
        && n <= |l.chunks| && lists.logs == old(lists.logs)[id := LogList(l.base + n, l.chunks[n..])]
        && (l.chunks != [] && ChunkSize(l.chunks[|l.chunks| - 1]) <= maxSize[id] ==> n < |l.chunks|)
        && PrunedTo(l.chunks, n, maxSize[id])
      ensures SizeUsed(lists.logs[id].chunks) <= maxSize[id]
    {
      hide Sound, S.Agrees, Flat;
      var l := lists.logs[id];
      var totalSize := GetSizeUsed(id);
      n := 0;
      if totalSize > maxSize[id] {
        n := Prune(id, totalSize - maxSize[id]);
        PrefixLeavesEnough(l.chunks, n, totalSize - maxSize[id]);
      } else {
        assert l.chunks[0..] == l.chunks && lists.logs[id := l] == lists.logs;
      }
    }

    lemma SoundParts()
      requires Sound()
      ensures engine.Lossless() && sequence <= UINT64_MAX && Consistent(lists, readers) && |lists.logs| == LOG_ID_MAX
      ensures Ordered(FlatsOf(lists.logs), sequence) && forall r :: r in readers ==> OnTrack(r)
    {
    }

    lemma SoundShape(id: LogId)
      requires Sound()
      ensures Shaped(lists.logs[id].chunks)
    {
      WiredOne(lists.logs, Views(readers), id);
    }

    /** A step confined to log `id` leaves the limits and statistics of the other logs as they were. */
    twostate lemma OtherLogs(id: LogId)
      requires old(Valid()) && Sound() && Writing() && Fits(id) && stats.AgreesOn(id, EntriesOf(id))
      requires forall b: LogId :: b != id ==> lists.logs[b] == old(lists.logs)[b] && maxSize[b] == old(maxSize)[b]
      requires stats.counters == old(stats.counters)[id := stats.counters[id]]
      ensures Valid()
    {
      hide Sound, S.Agrees, Flat;
      forall b: LogId
        ensures Fits(b) && stats.AgreesOn(b, EntriesOf(b))
      {
        if b != id {
          assert old(Fits(b)) && old(stats.AgreesOn(b, EntriesOf(b)));
        }
      }
    }

    /** Attaching and detaching change neither the limits nor the statistics. */
    twostate lemma SameLimits()
      requires old(Valid()) && Sound() && Writing() && SameContents(old(lists.logs), lists.logs)
      requires maxSize == old(maxSize) && stats.counters == old(stats.counters)
      ensures Valid()
    {
      hide Sound, S.Agrees, Flat;
      SameContentsFlats(old(lists.logs), lists.logs);
      forall id: LogId
        ensures Fits(id) && stats.AgreesOn(id, EntriesOf(id))
      {
        assert old(Fits(id)) && old(stats.AgreesOn(id, EntriesOf(id)));
        assert FlatsOf(lists.logs)[id] == EntriesOf(id) && FlatsOf(old(lists.logs))[id] == old(EntriesOf(id));
        assert SameEntries(old(lists.logs)[id], lists.logs[id]);
        SamePacked(old(lists.logs)[id], lists.logs[id]);
        if lists.logs[id].chunks != [] { SameBack(old(lists.logs)[id], lists.logs[id]); }
      }
    }

    lemma SamePacked(l: LogList<FlushToState>, m: LogList<FlushToState>)
      requires SameEntries(l, m) && AllPacked(l.chunks, engine)
      ensures AllPacked(m.chunks, engine)
    {
      forall j | 0 <= j < |m.chunks| ensures Packed(m.chunks[j], engine) { assert SameChunk(l.chunks[j], m.chunks[j]) && Packed(l.chunks[j], engine); }
    }

    // ---- Logging ----

    /** LogToLogBuffer plus the bookkeeping for readers the new entry comes too late for. */
    method AppendEntry(id: LogId, e: Entry)
      requires Sound() && |maxSize| == LOG_ID_MAX && ValidSize(maxSize[id])
      requires sequence < UINT64_MAX && e.sequence == sequence
      modifies this`sequence, lists, readers`history
      ensures Sound() && sequence == old(sequence) + 1
      ensures EntriesOf(id) == old(EntriesOf(id)) + [e]
      ensures lists.logs == old(lists.logs)[id := lists.logs[id]]
      ensures lists.logs[id] == old(lists.logs)[id].(chunks := Append(old(lists.logs)[id].chunks, maxSize[id], e, engine))
      ensures forall r :: r in readers ==> r.history == NoteAppended(r.start, old(r.history), e.sequence)
    {
      hide Wired, Flat, Tracks, Ordered, At, ValidPos, Append;
      ghost var logs0, rs0 := lists.logs, Views(readers);
      ghost var flats0 := FlatsOf(logs0);
      var l := lists.logs[id].(chunks := Append(lists.logs[id].chunks, maxSize[id], e, engine));
      AppendWired(logs0, rs0, id, l, maxSize[id], e, engine);
      AppendOrdered(flats0, sequence, id, e);
      assert forall r :: r in readers ==> old(OnTrack(r));
      lists.logs := lists.logs[id := l];
      sequence := sequence + 1;
      NoteAppendedAll(e.sequence);
      forall r | r in readers
        ensures OnTrack(r)
      {
        assert rs0[r] == r.View();
        OnTrackAfterAppend(r, logs0, old(r.history), id, e);
      }
    }

    ghost method NoteAppendedAll(n: nat)
      modifies readers`history
      ensures Views(readers) == old(Views(readers))
      ensures forall r :: r in readers ==> r.history == NoteAppended(r.start, old(r.history), n)
    {
      forall r | r in readers {
        r.history := NoteAppended(r.start, r.history, n);
      }
    }

    lemma OnTrackAfterAppend(r: FlushToState, logs0: seq<LogList<FlushToState>>, h0: History, id: LogId, e: Entry)
      requires |logs0| == |lists.logs| == LOG_ID_MAX && r.lists == lists && e.sequence + 1 == sequence
      requires Placed(logs0, r.View()) && Placed(lists.logs, r.View()) && AtOf(lists.logs, r.View()) == AtOf(logs0, r.View())
      requires FlatsOf(lists.logs) == FlatsOf(logs0)[id := FlatsOf(logs0)[id] + [e]]
      requires Tracks(FlatsOf(logs0), e.sequence, r.writer, Cursors(r.mask, r.start, AtOf(logs0, r.View())), h0)
      requires r.history == NoteAppended(r.start, h0, e.sequence)
      ensures OnTrack(r)
    {
      hide Tracks, Flat, At, ValidPos;
      AppendTracks(FlatsOf(logs0), e.sequence, r.writer, Cursors(r.mask, r.start, AtOf(logs0, r.View())), h0, id, e);
    }

    /**
     One atomic logging step. Too long a payload is cut; an empty one, an unknown log and a message the
     properties filter out are refused. The entry logged is still there afterwards.
     */
    method Log(logId: nat, realtime: LogTime, uid: uint32, pid: uint32, tid: uint32, msg: seq<byte>, shouldLog: bool)
      returns (ret: int, ghost pruned: nat, ghost n: nat)
      requires Valid() && sequence < UINT64_MAX && |msg| < 0x1_0000
      modifies this`sequence, lists, stats, readers`history, readers`positions, readers`needed
      ensures Valid()
      ensures logId >= LOG_ID_MAX || |msg| == 0 ==> ret == EINVAL
      ensures logId < LOG_ID_MAX && |msg| > 0 && !shouldLog ==> ret == EACCES
      ensures ret == EINVAL ==> stats.counters == old(stats.counters)
      ensures ret == EACCES ==> logId < LOG_ID_MAX && |msg| > 0
      ensures ret == EACCES ==> S.OneCameIn(old(stats.counters), stats.counters, logId, if |msg| <= MAX_PAYLOAD then |msg| else MAX_PAYLOAD)
      ensures ret < 0 ==> lists.logs == old(lists.logs) && sequence == old(sequence) && forall r :: r in readers ==> r.history == old(r.history)
      ensures logId < LOG_ID_MAX && |msg| > 0 && shouldLog ==>
        && ret == (if |msg| <= MAX_PAYLOAD then |msg| else MAX_PAYLOAD) && sequence == old(sequence) + 1
        && TookEntry(old(lists.logs)[logId].chunks, lists.logs[logId].chunks, pruned, n, Entry(uid, pid, tid, old(sequence), realtime, msg[..ret]), maxSize[logId], engine)
        && (forall b: LogId :: b != logId ==> lists.logs[b] == old(lists.logs)[b])
        && (forall r :: r in readers ==> r.history == NoteAppended(r.start, old(r.history), old(sequence)))
      ensures logId < LOG_ID_MAX && |msg| > 0 && shouldLog ==>
        S.OneCameIn(old(stats.counters), stats.counters, logId, ret + if stats.trackTotalSize then ENTRY_HEADER else 0)
    {
      hide Sound, Flat, S.Agrees, Append, PrunedTo, TookEntry;
      pruned, n := 0, 0;
      if logId >= LOG_ID_MAX || |msg| == 0 {
        return EINVAL, 0, 0;
      }
      var payload := if |msg| > MAX_PAYLOAD then msg[..MAX_PAYLOAD] else msg;
      if !shouldLog {
        assert stats.AgreesOn(logId, EntriesOf(logId));
        stats.AddTotal(logId, |payload|, EntriesOf(logId));
        assert Fits(logId);
        OtherLogs(logId);
        return EACCES, 0, 0;
      }
      ret := |payload|;
      assert payload == msg[..ret];
      pruned, n := LogEntry(logId, Entry(uid, pid, tid, sequence, realtime, payload));
    }

    method LogEntry(id: LogId, e: Entry) returns (ghost pruned: nat, ghost n: nat)
      requires Valid() && sequence < UINT64_MAX && e.sequence == sequence
      modifies this`sequence, lists, stats, readers`history, readers`positions, readers`needed
      ensures Valid() && sequence == old(sequence) + 1
      ensures TookEntry(old(lists.logs)[id].chunks, lists.logs[id].chunks, pruned, n, e, maxSize[id], engine)
      ensures forall b: LogId :: b != id ==> lists.logs[b] == old(lists.logs)[b]
      ensures S.OneCameIn(old(stats.counters), stats.counters, id, |e.msg| + if stats.trackTotalSize then ENTRY_HEADER else 0)
      ensures forall r :: r in readers ==> r.history == NoteAppended(r.start, old(r.history), e.sequence)
    {
      hide Sound, S.Agrees, Flat, Append, ShortestPrefix, AllPacked, SizeUsed, UsedBytes;
      ghost var flat0 := EntriesOf(id);
      assert Fits(id);
      SoundShape(id);
      BackAfterAppend(lists.logs[id].chunks, maxSize[id], e, engine);
      AppendPacked(lists.logs[id].chunks, maxSize[id], e, engine);
      AppendEntry(id, e);
      stats.Add(id, e, flat0);
      ghost var cs := lists.logs[id].chunks;
      n := MaybePrune(id);
      PackedSuffix(cs, n, engine);
      PackedBytes(id);
      DroppedPrefix(cs, n, flat0, e);
      pruned := |Flat(cs[..n])|;
      OtherLogs(id);
    }

    /** A list whose chunks are all packed: what it uses is what its bytes are. */
    lemma PackedBytes(id: LogId)
      requires Sound() && AllPacked(lists.logs[id].chunks, engine)
      ensures SizeUsed(lists.logs[id].chunks) == UsedBytes(lists.logs[id].chunks, engine)
    {
      hide Flat;
      SizeIsBytes(lists.logs[id].chunks, engine);
    }

    // ---- Changing the limit, clearing, readers coming and going ----

    /** A valid new limit is taken over and met at once, at the cost of the oldest chunks only. */
    method SetSize(id: LogId, size: nat) returns (ok: bool, ghost n: nat)
      requires Valid()
      modifies this`maxSize, lists, stats, readers`positions, readers`needed
      ensures Valid() && (ok <==> MIN_BUFFER <= size <= MAX_BUFFER)
      ensures !ok ==> maxSize == old(maxSize) && lists.logs == old(lists.logs)
      ensures ok ==>
        && maxSize == old(maxSize)[id := size] && SizeUsed(lists.logs[id].chunks) <= size && UsedBytes(lists.logs[id].chunks, engine) <= size
        && n <= |old(lists.logs)[id].chunks|
        && lists.logs == old(lists.logs)[id := LogList(old(lists.logs)[id].base + n, old(lists.logs)[id].chunks[n..])]
        && PrunedTo(old(lists.logs)[id].chunks, n, size)
    {
      hide Sound, Flat, S.Agrees, Fits;
      n := 0;
      if !ValidSize(size) {
        return false, 0;
      }
      n := Resize(id, size);
      ok := true;
    }

    method Resize(id: LogId, size: nat) returns (ghost n: nat)
      requires Valid() && ValidSize(size)
      modifies this`maxSize, lists, stats, readers`positions, readers`needed
      ensures Valid() && maxSize == old(maxSize)[id := size] && SizeUsed(lists.logs[id].chunks) <= size && UsedBytes(lists.logs[id].chunks, engine) <= size
      ensures n <= |old(lists.logs)[id].chunks|
      ensures lists.logs == old(lists.logs)[id := LogList(old(lists.logs)[id].base + n, old(lists.logs)[id].chunks[n..])]
      ensures PrunedTo(old(lists.logs)[id].chunks, n, size)
    {
      hide S.Agrees, Flat, Sound;
      ghost var cs := lists.logs[id].chunks;
      assert Fits(id);
      SetLimit(id, size);
      n := MaybePrune(id);
      PackedSuffix(cs, n, engine);
      if lists.logs[id].chunks != [] { BackWithin(lists.logs[id].chunks); }
      PackedBytes(id);
      OtherLogs(id);
    }

    method SetLimit(id: LogId, size: nat)
      requires Sound() && |maxSize| == LOG_ID_MAX
      modifies this`maxSize
      ensures Sound() && maxSize == old(maxSize)[id := size]
    {
      hide Flat, Tracks, Ordered, Wired, Placed;
      maxSize := maxSize[id := size];
      forall r | r in readers ensures OnTrack(r) { assert old(OnTrack(r)); }
    }

    /** Clear for the root uid: nothing of the log remains (its size cannot reach 2^64 bytes). */
    method ClearAll(id: LogId) returns (ghost n: nat)
      requires Valid()
      modifies lists, stats, readers`positions, readers`needed
      ensures Valid() && n <= |old(lists.logs)[id].chunks| && S.OnlyThis(old(stats.counters), stats.counters, id)
      ensures lists.logs == old(lists.logs)[id := LogList(old(lists.logs)[id].base + n, old(lists.logs)[id].chunks[n..])]
      ensures SizeUsed(old(lists.logs)[id].chunks) < UINT64_MAX ==> lists.logs[id].chunks == []
    {
      hide S.Agrees, Flat, Sound;
      ghost var cs := lists.logs[id].chunks;
      assert Fits(id);
      n := Prune(id, UINT64_MAX);
      assert cs == cs[..n] + cs[n..];
      SizeUsedConcat(cs[..n], cs[n..]);
      OtherLogs(id);
    }

    // ---- Clearing one uid ----

    method ContainsUid(chunk: Chunk<FlushToState>, uid: uint32) returns (found: bool)
      requires Accessible(chunk)
      ensures found <==> FromUid(chunk, uid)
    {
      var es := chunk.entries;
      for i := 0 to |es|
        invariant forall k :: 0 <= k < i ==> es[k].uid != uid
      {
        if es[i].uid == uid {
          return true;
        }
      }
      return false;
    }

    /** Writes the entries of a held chunk that are not from `uid` to the end of `logs`, and counts the others out. */
    method Reflow(id: LogId, uid: uint32, chunk: Chunk<FlushToState>, logs: seq<Chunk<FlushToState>>, ghost kept: nat,
                  ghost rest: seq<Entry>) returns (r: seq<Chunk<FlushToState>>)
      requires Accessible(chunk) && engine.Lossless() && |maxSize| == LOG_ID_MAX && ValidSize(maxSize[id])
      requires Reflowed(logs, kept, maxSize[id], engine) && stats.AgreesOn(id, Flat(logs) + chunk.entries + rest)
      modifies stats
      ensures Reflowed(r, kept, maxSize[id], engine) && kept <= |r| && r[..kept] == logs[..kept]
      ensures Flat(r) == Flat(logs) + Others(chunk.entries, uid)
      ensures stats.AgreesOn(id, Flat(r) + rest)
      ensures S.OnlyThis(old(stats.counters), stats.counters, id)
    {
      hide Flat, Append, Reflowed, S.Agrees, Others;
      var es := chunk.entries;
      r := logs;
      OthersNone(es[..0], uid);
      assert es[..0] == [] && es[0..] == es && Flat(logs) + [] == Flat(logs);
      for i := 0 to |es|
        invariant Reflowed(r, kept, maxSize[id], engine) && kept <= |r| && r[..kept] == logs[..kept]
        invariant Flat(r) == Flat(logs) + Others(es[..i], uid)
        invariant stats.AgreesOn(id, Flat(r) + es[i..] + rest)
        invariant S.OnlyThis(old(stats.counters), stats.counters, id)
      {
        var e := es[i];
        OthersOneMore(es, i, uid);
        RestSplit(Flat(r), es, i, rest);
        r := ReflowOne(id, uid, e, r, kept, es[i + 1..] + rest);
        Associates(Flat(r), es[i + 1..], rest);
        Associates(Flat(logs), Others(es[..i], uid), if e.uid == uid then [] else [e]);
      }
      assert es[..|es|] == es && Flat(r) + es[|es|..] + rest == Flat(r) + rest;
    }

    lemma OthersOneMore(es: seq<Entry>, i: nat, uid: uint32)
      requires i < |es|
      ensures Others(es[..i + 1], uid) == Others(es[..i], uid) + if es[i].uid == uid then [] else [es[i]]
    {
      assert es[..i + 1] == es[..i] + [es[i]];
      OthersSnoc(es[..i], es[i], uid);
      assert Others(es[..i], uid) + [] == Others(es[..i], uid);
    }

    lemma RestSplit(f: seq<Entry>, es: seq<Entry>, i: nat, rest: seq<Entry>)
      requires i < |es|
      ensures f + es[i..] + rest == f + [es[i]] + (es[i + 1..] + rest)
    {
    }

    /** One entry: counted out if it is from `uid`, otherwise written to the end of `logs`. */
    method ReflowOne(id: LogId, uid: uint32, e: Entry, logs: seq<Chunk<FlushToState>>, ghost kept: nat, ghost rest: seq<Entry>)
      returns (r: seq<Chunk<FlushToState>>)
      requires engine.Lossless() && |maxSize| == LOG_ID_MAX && ValidSize(maxSize[id])
      requires Reflowed(logs, kept, maxSize[id], engine) && stats.AgreesOn(id, Flat(logs) + [e] + rest)
      modifies stats
      ensures Reflowed(r, kept, maxSize[id], engine) && r[..kept] == logs[..kept]
      ensures Flat(r) == Flat(logs) + if e.uid == uid then [] else [e]
      ensures stats.AgreesOn(id, Flat(r) + rest)
      ensures S.OnlyThis(old(stats.counters), stats.counters, id)
    {
      hide Flat, Append, Shaped, NobodyAttached, S.Agrees;
      if e.uid == uid {
        stats.Subtract(id, e, Flat(logs), rest);
        r := logs;
        assert Flat(logs) + [] == Flat(logs);
      } else {
        AppendFlat(logs, maxSize[id], e, engine);
        AppendDeserted(logs, maxSize[id], e, engine);
        BackAfterAppend(logs, maxSize[id], e, engine);
        AppendPacked(logs, maxSize[id], e, engine);
        AppendCases(logs, maxSize[id], e, engine);
        r := Append(logs, maxSize[id], e, engine);
        assert r[..kept] == r[..|logs| - 1][..kept] == logs[..kept];
        forall j | kept <= j < |r| ensures r[j].capacity == maxSize[id] / 4 {
          if j < |logs| - 1 { assert r[j] == r[..|logs| - 1][j] == logs[j]; }
        }
      }
    }

    /** One round of ClearLogsByUid: chunk j, held open, is spliced over as it is or reflowed. */
    method MoveChunk(id: LogId, uid: uint32, ghost cs: seq<Chunk<FlushToState>>, ghost j: nat, chunk: Chunk<FlushToState>,
                     logs: seq<Chunk<FlushToState>>, found: bool, ghost kept: nat)
      returns (r: seq<Chunk<FlushToState>>, nowFound: bool)
      requires engine.Lossless() && |maxSize| == LOG_ID_MAX && ValidSize(maxSize[id])
      requires Shaped(cs) && AllPacked(cs, engine) && j < |cs| && chunk == Deserted(cs[j])
      requires Rebuilt(cs, j, uid, maxSize[id], engine, logs, found, kept) && stats.AgreesOn(id, Flat(logs) + Flat(cs[j..]))
      modifies stats
      ensures Rebuilt(cs, j + 1, uid, maxSize[id], engine, r, nowFound, if nowFound then kept else kept + 1)
      ensures stats.AgreesOn(id, Flat(r) + Flat(cs[j + 1..]))
      ensures S.OnlyThis(old(stats.counters), stats.counters, id)
    {
      hide Flat, Shaped, NobodyAttached, S.Agrees, FromUid;
      var held := chunk.(refCount := chunk.refCount + 1);
      nowFound := found;
      r := logs;
      ghost var es, rest := cs[j].entries, Flat(cs[j + 1..]);
      assert cs[j..][0] == cs[j] && cs[j..][1..] == cs[j + 1..];
      FrontOfFlat(cs[j..]);
      FlatNext(cs, j);
      OthersConcat(Flat(cs[..j]), es, uid);
      assert Flat(logs) + (es + rest) == Flat(logs) + es + rest;
      if !found {
        nowFound := ContainsUid(held, uid);
        SameUid(held, cs[j], uid);
        if !nowFound {
          r := logs + [held.(refCount := held.refCount - 1)];
          KeptChunk(cs, j, uid);
          assert Flat(r) == Flat(logs) + es;
          return;
        }
        OpenChunk(cs, j, maxSize[id]);
        OpenPacked(cs, j, maxSize[id], engine);
        DesertedFacts(cs[..j]);
        r := r + [NewChunk(maxSize[id] / CHUNK_SIZE_DIVISOR)];
        assert r[..kept] == logs;
      }
      assert Flat(r) == Flat(logs);
      r := Reflow(id, uid, held, r, kept, rest);
    }

    lemma SameUid(c: Chunk<FlushToState>, d: Chunk<FlushToState>, uid: uint32)
      requires c.entries == d.entries
      ensures FromUid(c, uid) <==> FromUid(d, uid)
    {
    }

    lemma KeptChunk(cs: seq<Chunk<FlushToState>>, j: nat, uid: uint32)
      requires j < |cs| && !FromUid(cs[j], uid)
      ensures DesertedAll(cs[..j + 1]) == DesertedAll(cs[..j]) + [Deserted(cs[j])]
      ensures Flat(DesertedAll(cs[..j + 1])) == Flat(DesertedAll(cs[..j])) + cs[j].entries
      ensures Others(cs[j].entries, uid) == cs[j].entries
    {
      hide Flat;
      OthersNone(cs[j].entries, uid);
      DesertedNext(cs, j);
      DesertedFacts(cs[..j + 1]);
      DesertedFacts(cs[..j]);
      FlatNext(cs, j);
    }

    /** The loop of ClearLogsByUid: every chunk is let go by its readers and moved over to the new list. */
    method Rebuild(id: LogId, uid: uint32) returns (newLogs: seq<Chunk<FlushToState>>, found: bool, ghost kept: nat)
      requires Consistent(lists, readers) && engine.Lossless() && Fits(id) && stats.AgreesOn(id, EntriesOf(id))
      modifies lists, stats, readers`positions, readers`needed
      ensures Consistent(lists, readers)
      ensures lists.logs == old(lists.logs)[id := old(lists.logs)[id].(chunks := DesertedAll(old(lists.logs)[id].chunks))]
      ensures var cs := old(lists.logs)[id].chunks; Rebuilt(cs, |cs|, uid, maxSize[id], engine, newLogs, found, kept)
      ensures stats.AgreesOn(id, Flat(newLogs)) && S.OnlyThis(old(stats.counters), stats.counters, id)
      ensures forall r :: r in readers ==> r.positions - {id} == old(r.positions) - {id}
    {
      hide Wired, Flat, S.Agrees, Shaped, Rebuilt, SameContents, DesertedUpTo, Deserted, AllPacked;
      WiredOne(lists.logs, Views(readers), id);
      ghost var logs0, cs := lists.logs, lists.logs[id].chunks;
      newLogs, found, kept := [], false, 0;
      var n := |lists.logs[id].chunks|;
      RebuiltNothing(cs, uid, maxSize[id]);
      DesertedEnds(logs0[id]);
      assert cs[0..] == cs && Flat<FlushToState>([]) + Flat(cs) == Flat(cs) && logs0[id := logs0[id]] == logs0;
      for j := 0 to n
        invariant Consistent(lists, readers) && |lists.logs| == LOG_ID_MAX && n == |cs|
        invariant lists.logs == logs0[id := DesertedUpTo(logs0[id], j)]
        invariant Rebuilt(cs, j, uid, maxSize[id], engine, newLogs, found, kept)
        invariant stats.AgreesOn(id, Flat(newLogs) + Flat(cs[j..]))
        invariant S.OnlyThis(old(stats.counters), stats.counters, id)
        invariant forall r :: r in readers ==> r.positions - {id} == old(r.positions) - {id}
      {
        LetGo(id, j, logs0);
        newLogs, found := MoveChunk(id, uid, cs, j, lists.logs[id].chunks[j], newLogs, found, kept);
        kept := if found then kept else kept + 1;
      }
      assert cs[n..] == [];
      FlatEmpty(cs[n..]);
      assert Flat(newLogs) + [] == Flat(newLogs);
    }

    method LetGo(id: LogId, j: nat, ghost logs0: seq<LogList<FlushToState>>)
      requires Consistent(lists, readers) && |logs0| == LOG_ID_MAX && j < |logs0[id].chunks|
      requires lists.logs == logs0[id := DesertedUpTo(logs0[id], j)]
      modifies lists, readers`positions, readers`needed
      ensures Consistent(lists, readers)
      ensures lists.logs == logs0[id := DesertedUpTo(logs0[id], j + 1)]
      ensures |lists.logs[id].chunks| == |logs0[id].chunks| && lists.logs[id].chunks[j] == Deserted(logs0[id].chunks[j])
      ensures forall r :: r in readers ==> r.positions - {id} == old(r.positions) - {id}
    {
      hide Wired, Flat, SameContents, Deserted, DesertedUpTo;
      DesertedStep(logs0[id], j);
      NotifyReadersOfPrune(id, j);
      assert lists.logs == logs0[id := lists.logs[id]];
    }

    lemma RebuiltNothing(cs: seq<Chunk<FlushToState>>, uid: uint32, maxSize: nat)
      ensures Rebuilt(cs, 0, uid, maxSize, engine, [], false, 0) && Flat<FlushToState>([]) == []
    {
    }

    /**
     UidClear: the log keeps exactly the entries of other uids, in order. Chunks before the first
     affected one stay as they are; without an affected one nothing but attachments changes.
     */
    method UidClear(id: LogId, uid: uint32) returns (ghost kept: nat)
      requires Valid()
      modifies lists, stats, readers`positions, readers`needed, readers`history
      ensures Valid()
      ensures S.OnlyThis(old(stats.counters), stats.counters, id)
      ensures EntriesOf(id) == Others(old(EntriesOf(id)), uid)
      ensures forall b: LogId :: b != id ==> lists.logs[b] == old(lists.logs)[b]
      ensures var cs, ds := old(lists.logs)[id].chunks, lists.logs[id].chunks;
        && kept <= |cs| && kept <= |ds| && (forall i :: 0 <= i < kept ==> !FromUid(cs[i], uid))
        && (kept < |cs| ==> FromUid(cs[kept], uid)) && (kept == |cs| ==> |ds| == |cs|)
        && (forall i :: 0 <= i < kept ==> ds[i] == Deserted(cs[i]))
        && (forall i :: kept <= i < |ds| ==> ds[i].capacity == maxSize[id] / 4)
        && NobodyAttached(ds)
      ensures forall r :: r in readers ==> r.history == NoteCleared(r.mask, r.start, old(r.history), id, EntriesOf(id))
    {
      hide Flat, S.Agrees, NobodyAttached, Sound, FromUid, Others, HasNumber;
      assert Fits(id);
      kept := ClearLogsByUid(id, uid);
      OtherLogs(id);
    }

    /** ClearLogsByUid: the new list is built, then takes the place of the old one. */
    method ClearLogsByUid(id: LogId, uid: uint32) returns (ghost kept: nat)
      requires Sound() && Fits(id) && stats.AgreesOn(id, EntriesOf(id))
      modifies lists, stats, readers`positions, readers`needed, readers`history
      ensures Sound() && stats.AgreesOn(id, EntriesOf(id)) && Fits(id)
      ensures S.OnlyThis(old(stats.counters), stats.counters, id)
      ensures EntriesOf(id) == Others(old(EntriesOf(id)), uid)
      ensures forall b: LogId :: b != id ==> lists.logs[b] == old(lists.logs)[b]
      ensures var cs, ds := old(lists.logs)[id].chunks, lists.logs[id].chunks;
        && kept <= |cs| && kept <= |ds| && (forall i :: 0 <= i < kept ==> !FromUid(cs[i], uid))
        && (kept < |cs| ==> FromUid(cs[kept], uid)) && (kept == |cs| ==> |ds| == |cs|)
        && (forall i :: 0 <= i < kept ==> ds[i] == Deserted(cs[i]))
        && (forall i :: kept <= i < |ds| ==> ds[i].capacity == maxSize[id] / 4)
        && NobodyAttached(ds)
      ensures forall r :: r in readers ==> r.history == NoteCleared(r.mask, r.start, old(r.history), id, EntriesOf(id))
    {
      hide Wired, Flat, S.Agrees, Tracks, Ordered, At, ValidPos, Rebuilt, Placed, Shaped, NobodyAttached, Sound, OnTrack, Others, HasNumber, FromUid, S.OnlyThis, NoteCleared, AllPacked, Deserted, DesertedAll, ValidSize;
      SoundShape(id);
      SoundParts();
      AllPlaced();
      ghost var logs0, rs0 := lists.logs, Views(readers);
      var newLogs, found;
      newLogs, found, kept := Rebuild(id, uid);
      RebuiltFacts(logs0[id].chunks, uid, maxSize[id], newLogs, found, kept);
      SwapIn(id, uid, newLogs, logs0, rs0);
    }

    /** A second clear of the same uid right after the first leaves every chunk exactly as it is. */
    method UidClearTwice(id: LogId, uid: uint32) returns (ghost once: seq<Chunk<FlushToState>>)
      requires Valid()
      modifies lists, stats, readers`positions, readers`needed, readers`history
      ensures Valid() && EntriesOf(id) == Others(old(EntriesOf(id)), uid)
      ensures lists.logs[id].chunks == once && Flat(once) == Others(old(EntriesOf(id)), uid)
    {
      hide Sound, Flat, FromUid, S.Agrees;
      ghost var es := EntriesOf(id);
      ghost var kept := UidClear(id, uid);
      once := lists.logs[id].chunks;
      kept := UidClear(id, uid);
      if kept < |once| {
        UidInFlat(once, kept, uid);
        OthersWithout(es, uid);
        assert false;
      }
      assert lists.logs[id].chunks == once;
    }

    lemma UidInFlat(cs: seq<Chunk<FlushToState>>, j: nat, uid: uint32)
      requires j < |cs| && FromUid(cs[j], uid)
      ensures exists e :: e in Flat(cs) && e.uid == uid
    {
      FlatSplit(cs, j);
      var i :| 0 <= i < |cs[j].entries| && cs[j].entries[i].uid == uid;
      assert cs[j].entries[i] in Flat(cs);
    }

    /** std::swap(new_logs, log_buffer); logs0 and rs0 are from before the clear. */
    method SwapIn(id: LogId, ghost uid: uint32, newLogs: seq<Chunk<FlushToState>>, ghost logs0: seq<LogList<FlushToState>>,
                  ghost rs0: map<FlushToState, Reader>)
      requires Consistent(lists, readers) && Shaped(newLogs) && NobodyAttached(newLogs)
      requires |logs0| == LOG_ID_MAX && Flat(newLogs) == Others(Flat(logs0[id].chunks), uid) && rs0.Keys == readers
      requires lists.logs == logs0[id := logs0[id].(chunks := DesertedAll(logs0[id].chunks))]
      requires engine.Lossless() && sequence <= UINT64_MAX && Ordered(FlatsOf(logs0), sequence)
      requires forall r :: r in readers ==>
        && r.lists == lists && Placed(logs0, rs0[r]) && r.positions - {id} == rs0[r].positions - {id}
        && Tracks(FlatsOf(logs0), sequence, r.writer, Cursors(r.mask, r.start, AtOf(logs0, rs0[r])), r.history)
      modifies lists, readers`history
      ensures Sound() && lists.logs == logs0[id := LogList(logs0[id].base, newLogs)]
      ensures forall r :: r in readers ==> r.history == NoteCleared(r.mask, r.start, old(r.history), id, EntriesOf(id))
    {
      hide Wired, Flat, Tracks, Ordered, At, ValidPos, Shaped, Placed, SameEntries, NobodyAttached;
      ghost var rs := Views(readers);
      NoCursorsLeft(lists.logs, rs, id);
      forall r | r in readers ensures id !in r.positions { assert rs[r] == r.View(); }
      ClearOrdered(FlatsOf(logs0), sequence, id, uid);
      var l := LogList(lists.logs[id].base, newLogs);
      ReplaceDeserted(lists.logs, rs, id, l);
      lists.logs := lists.logs[id := l];
      assert lists.logs == logs0[id := l];
      NoteClearedAll(id, EntriesOf(id));
      assert FlatsOf(lists.logs) == FlatsOf(logs0)[id := Others(FlatsOf(logs0)[id], uid)];
      forall r | r in readers ensures OnTrack(r) {
        assert rs[r] == r.View();
        OnTrackAfterClear(r, logs0, rs0[r], old(r.history), id, uid);
      }
    }

    ghost method NoteClearedAll(id: LogId, left: seq<Entry>)
      modifies readers`history
      ensures Views(readers) == old(Views(readers))
      ensures forall r :: r in readers ==> r.history == NoteCleared(r.mask, r.start, old(r.history), id, left)
    {
      forall r | r in readers {
        r.history := NoteCleared(r.mask, r.start, r.history, id, left);
      }
    }

    lemma ReplaceDeserted(logs: seq<LogList<FlushToState>>, rs: map<FlushToState, Reader>, id: LogId, l: LogList<FlushToState>)
      requires Wired(logs, rs) && Shaped(l.chunks) && NobodyAttached(l.chunks)
      requires forall r :: r in rs ==> id !in rs[r].positions
      ensures Wired(logs[id := l], rs)
    {
      hide Wired, Shaped;
      ReplaceWired(logs, rs, id, l);
    }

    /** Once every chunk of a log is deserted, no reader has a cursor into it. */
    lemma NoCursorsLeft(logs: seq<LogList<FlushToState>>, rs: map<FlushToState, Reader>, id: LogId)
      requires Wired(logs, rs) && forall j :: 0 <= j < |logs[id].chunks| ==> logs[id].chunks[j].readers == []
      ensures forall r :: r in rs ==> id !in rs[r].positions
    {
      forall r | r in rs ensures id !in rs[r].positions {
        WiredPlaced(logs, rs, r);
      }
    }

    lemma OnTrackAfterClear(r: FlushToState, logs0: seq<LogList<FlushToState>>, v: Reader, h0: History, id: LogId, uid: uint32)
      requires |logs0| == |lists.logs| == LOG_ID_MAX && r.lists == lists && lists.logs == logs0[id := lists.logs[id]]
      requires Placed(logs0, v) && id !in r.positions && r.positions - {id} == v.positions - {id}
      requires FlatsOf(lists.logs) == FlatsOf(logs0)[id := Others(FlatsOf(logs0)[id], uid)]
      requires Tracks(FlatsOf(logs0), sequence, r.writer, Cursors(r.mask, r.start, AtOf(logs0, v)), h0)
      requires Ordered(FlatsOf(logs0), sequence) && r.history == NoteCleared(r.mask, r.start, h0, id, FlatsOf(lists.logs)[id])
      ensures OnTrack(r)
    {
      hide Tracks, Flat, At, ValidPos;
      var c := Cursors(r.mask, r.start, AtOf(logs0, v));
      assert r.positions == r.positions - {id};
      forall b: LogId | b != id ensures SameEntries(logs0[b], lists.logs[b]) { assert logs0[b] == lists.logs[b]; }
      CursorDropped(logs0, lists.logs, v, r.View(), id);
      ClearTracks(FlatsOf(logs0), sequence, r.writer, c, h0, id, uid);
      assert r.Cur() == c.(at := c.at - {id});
    }

    lemma RebuiltFacts(cs: seq<Chunk<FlushToState>>, uid: uint32, maxSize: nat, logs: seq<Chunk<FlushToState>>, found: bool, kept: nat)
      requires Shaped(cs) && Rebuilt(cs, |cs|, uid, maxSize, engine, logs, found, kept)
      requires AllPacked(cs, engine) && (cs != [] ==> ChunkSize(cs[|cs| - 1]) <= maxSize)
      ensures Shaped(logs) && NobodyAttached(logs) && Flat(logs) == Others(Flat(cs), uid)
      ensures logs != [] ==> ChunkSize(logs[|logs| - 1]) <= maxSize
      ensures AllPacked(logs, engine) && forall i :: kept <= i < |logs| ==> logs[i].capacity == maxSize / 4
      ensures kept <= |cs| && kept <= |logs| && (forall i :: 0 <= i < kept ==> !FromUid(cs[i], uid))
      ensures (kept < |cs| ==> FromUid(cs[kept], uid)) && (kept == |cs| ==> |logs| == |cs|)
      ensures forall i :: 0 <= i < kept ==> logs[i] == Deserted(cs[i])
    {
      hide Flat, Shaped, NobodyAttached, FromUid;
      assert cs[..|cs|] == cs;
      DesertedFacts(cs);
      DesertedPacked(cs, engine);
      forall i | 0 <= i < kept ensures logs[i] == Deserted(cs[i]) {
        assert logs[i] == logs[..kept][i];
      }
    }

    /** CreateFlushToState: a new reader starts out with no cursor anywhere. */
    method CreateFlushToState(start: nat, mask: set<LogId>, writer: Writer) returns (r: FlushToState)
      requires Valid()
      modifies this`readers
      ensures Valid() && fresh(r) && readers == old(readers) + {r}
      ensures r.start == start && r.mask == mask && r.writer == writer && r.positions == map[]
      ensures r.history == History(false, false, start, {}, {}, [], 0)
    {
      hide S.Agrees, Flat, Tracks, Ordered, Wired;
      ghost var rs0 := Views(readers);
      r := new FlushToState(start, mask, lists, writer);
      WiredOne(lists.logs, rs0, 0);
      AddWired(lists.logs, rs0, r, mask);
      readers := readers + {r};
      assert Views(readers) == rs0[r := r.View()];
      NewReader(FlatsOf(lists.logs), sequence, writer, mask, start);
      assert r.Cur().at == map[];
      forall q | q in readers ensures OnTrack(q) {
        assert q != r ==> old(OnTrack(q));
      }
      SameLimits();
    }

    /** A reader goes away: whatever it was attached to is released. */
    method DestroyFlushToState(r: FlushToState)
      requires Valid() && r in readers
      modifies this`readers, lists, r`positions, r`needed
      ensures Valid() && readers == old(readers) - {r}
      ensures SameContents(old(lists.logs), lists.logs)
    {
      hide S.Agrees, Flat, Tracks, Ordered, Wired, SameEntries, At, ValidPos;
      ghost var logs0, rs0 := lists.logs, Views(readers);
      r.Destroy(readers);
      RemoveWired(lists.logs, Views(readers), r);
      ghost var rs1 := Views(readers);
      SameContentsFlats(logs0, lists.logs);
      readers := readers - {r};
      assert Views(readers) == rs1 - {r};
      forall q | q in readers ensures OnTrack(q) {
        assert old(OnTrack(q));
        OnTrackSame(q, logs0);
      }
      SameLimits();
    }

    // ---- Flushing ----

    /** A reader sees nothing of others attaching and detaching. */
    lemma OnTrackSame(q: FlushToState, logs0: seq<LogList<FlushToState>>)
      requires SameContents(logs0, lists.logs) && q.lists == lists && Placed(logs0, q.View())
      requires Tracks(FlatsOf(logs0), sequence, q.writer, Cursors(q.mask, q.start, AtOf(logs0, q.View())), q.history)
      ensures OnTrack(q)
    {
      hide Tracks, Flat, At, ValidPos, SameEntries;
      SameContentsFlats(logs0, lists.logs);
      SameContentsAt(logs0, lists.logs, q.View());
    }

    /** One look at the logs: locate what is new, then take the lowest-numbered entry at any cursor, if there is one. */
    method NextEntry(r: FlushToState) returns (popped: Option<LogWithId>, ghost c: Cursors)
      requires Sound() && r in readers
      modifies lists, r`positions, r`needed
      ensures Consistent(lists, readers) && SameContents(old(lists.logs), lists.logs) && r.Settled()
      ensures FlatsOf(lists.logs) == FlatsOf(old(lists.logs)) && Extends(FlatsOf(lists.logs), old(r.Cur()), c)
      ensures forall q :: q in readers && q != r ==> OnTrack(q)
      ensures popped.None? ==> r.Cur() == c && AllRead(FlatsOf(lists.logs), c)
      ensures popped.Some? ==> Pops(FlatsOf(lists.logs), c, popped.value.logId, popped.value.entry, r.Cur())
    {
      hide Tracks, Wired, Flat, At, ValidPos, SameContents, Extends, Ordered, UpToDate, Flags, OnTrack, Located, Placed, AllRead, AllBelow;
      ghost var flats := FlatsOf(lists.logs);
      assert OnTrack(r);
      var unread := Look(r);
      c := r.Cur();
      if !unread {
        NothingAhead(flats, c, r.needed);
        return None, c;
      }
      var x := PopEntry(r);
      popped := Some(x);
    }

    /** state.PopNextUnreadLog(), which moves no other reader. */
    method PopEntry(r: FlushToState) returns (x: LogWithId)
      requires Consistent(lists, readers) && r in readers && r.Settled() && exists id :: id in r.positions && id !in r.needed
      requires forall id: LogId :: UpToDate(FlatsOf(lists.logs), r.Cur(), r.needed, id)
      requires forall id: LogId :: AllBelow(Flat(lists.logs[id].chunks), UINT64_MAX)
      requires forall q :: q in readers && q != r ==> OnTrack(q)
      modifies r`positions, r`needed
      ensures Consistent(lists, readers) && r.Settled() && Pops(FlatsOf(lists.logs), old(r.Cur()), x.logId, x.entry, r.Cur())
      ensures forall q :: q in readers && q != r ==> OnTrack(q)
    {
      hide Tracks, Wired, Flat, At, ValidPos, UpToDate, Flags, OnTrack, Located, Placed, AllBelow, NextIs;
      var id, e := r.PopNextUnreadLog(readers);
      x := LogWithId(id, e);
    }

    /** state.HasUnreadLogs(), which moves no other reader. */
    method Look(r: FlushToState) returns (unread: bool)
      requires Sound() && r in readers && OnTrack(r)
      modifies lists, r`positions, r`needed
      ensures Consistent(lists, readers) && SameContents(old(lists.logs), lists.logs) && r.Settled()
      ensures FlatsOf(lists.logs) == FlatsOf(old(lists.logs)) && Extends(FlatsOf(lists.logs), old(r.Cur()), r.Cur())
      ensures forall id: LogId :: UpToDate(FlatsOf(lists.logs), r.Cur(), r.needed, id)
      ensures forall id: LogId :: AllBelow(Flat(lists.logs[id].chunks), UINT64_MAX)
      ensures forall q :: q in readers && q != r ==> OnTrack(q)
      ensures unread <==> exists id :: id in r.positions && id !in r.needed
    {
      hide Tracks, Wired, Flat, At, ValidPos, SameEntries, Extends, Ordered, UpToDate, Flags, Placed;
      ghost var logs0 := lists.logs;
      OrderedFacts(logs0, sequence);
      unread := r.HasUnreadLogs(readers);
      SameContentsFlats(logs0, lists.logs);
      BoundsSame(logs0, lists.logs);
      forall q | q in readers && q != r ensures OnTrack(q) {
        assert old(OnTrack(q));
        OnTrackSame(q, logs0);
      }
    }

    lemma OrderedFacts(logs: seq<LogList<FlushToState>>, next: nat)
      requires |logs| == LOG_ID_MAX && Ordered(FlatsOf(logs), next) && next <= UINT64_MAX
      ensures forall id: LogId :: Sorted(Flat(logs[id].chunks)) && AllBelow(Flat(logs[id].chunks), UINT64_MAX)
    {
      forall id: LogId
        ensures Sorted(Flat(logs[id].chunks)) && AllBelow(Flat(logs[id].chunks), UINT64_MAX)
      {
        assert FlatsOf(logs)[id] == Flat(logs[id].chunks);
        assert Sorted(FlatsOf(logs)[id]) && AllBelow(FlatsOf(logs)[id], next);
      }
    }

    lemma BoundsSame(logs: seq<LogList<FlushToState>>, ms: seq<LogList<FlushToState>>)
      requires SameContents(logs, ms) && forall id: LogId :: AllBelow(Flat(logs[id].chunks), UINT64_MAX)
      ensures forall id: LogId :: AllBelow(Flat(ms[id].chunks), UINT64_MAX)
    {
      SameContentsFlats(logs, ms);
      forall id: LogId ensures AllBelow(Flat(ms[id].chunks), UINT64_MAX) {
        assert Flat(logs[id].chunks) == FlatsOf(logs)[id] == FlatsOf(ms)[id] == Flat(ms[id].chunks);
      }
    }

    /** Takes the next entry; one below `start` is stepped over, any other moves `start` onto itself. */
    method TakeNext(r: FlushToState) returns (unread: bool, taken: Option<LogWithId>)
      requires Sound() && r in readers && r.Settled()
      modifies lists, r
      ensures Sound() && SameContents(old(lists.logs), lists.logs) && r.Settled()
      ensures FlatsOf(lists.logs) == FlatsOf(old(lists.logs)) && r.history.delivered == old(r.history.delivered)
      ensures !unread ==> taken.None? && AllRead(FlatsOf(lists.logs), r.Cur())
      ensures unread ==> Remaining(FlatsOf(lists.logs), r.Cur(), LOG_ID_MAX) < Remaining(FlatsOf(lists.logs), old(r.Cur()), LOG_ID_MAX)
      ensures taken.None? ==> r.start == old(r.start) && r.history == old(r.history)
      ensures taken.Some? ==>
        var id, e := taken.value.logId, taken.value.entry;
        && r.start == e.sequence && r.history == Take(old(r.history), r.writer, e)
        && TakesNext(FlatsOf(lists.logs), r.mask, old(r.start), old(r.history), id, e)
    {
      hide Tracks, Wired, Flat, At, ValidPos, SameEntries, SameContents, Extends, Ordered, Remaining, TakesNext, Located, Placed;
      ghost var c0, flats := r.Cur(), FlatsOf(lists.logs);
      assert OnTrack(r);
      var popped, c := NextEntry(r);
      unread, taken := popped.Some?, None;
      if popped.None? {
        ExtendsTracks(flats, sequence, r.writer, c0, c, r.history);
        ExtendsFields(flats, c0, c);
      } else {
        var id, e := popped.value.logId, popped.value.entry;
        TakeFacts(flats, sequence, r.writer, c0, c, r.history, id);
        if e.sequence >= r.start {
          RemainingStart(flats, Advance(c, id), e.sequence, LOG_ID_MAX);
          SetStart(r, e);
          taken := popped;
          assert r.Cur() == Advance(c, id).(start := e.sequence);
        }
      }
      assert OnTrack(r);
    }

    /** state.set_start(entry->sequence()), which moves no cursor. */
    method SetStart(r: FlushToState, e: Entry)
      requires r in readers
      modifies r`start, r`history
      ensures r.start == e.sequence && r.history == Take(old(r.history), r.writer, e) && Views(readers) == old(Views(readers))
    {
      ghost var rs := Views(readers);
      r.start := e.sequence;
      r.history := Take(r.history, r.writer, e);
      assert Views(readers) == rs;
    }

    /** state.set_start(state.start() + 1) at the end of a flush. */
    method FinishFlush(r: FlushToState)
      requires Sound() && r in readers && r.Settled() && (r.history.mid || AllRead(FlatsOf(lists.logs), r.Cur()))
      modifies r`start, r`history
      ensures Sound() && r.start == old(r.start) + 1 && r.history == old(r.history).(mid := false, replay := false)
    {
      hide Tracks, Wired, Flat, Ordered, AllRead, At, ValidPos;
      ghost var rs := Views(readers);
      assert OnTrack(r);
      EndTracks(FlatsOf(lists.logs), sequence, r.writer, r.Cur(), r.history);
      r.start := r.start + 1;
      r.history := r.history.(mid := false, replay := false);
      assert Views(readers) == rs;
      assert r.Cur() == old(r.Cur()).(start := r.start);
      forall q | q in readers ensures OnTrack(q) {
        assert q != r ==> old(OnTrack(q));
      }
    }

    /** The entry just taken goes out to the client. */
    ghost method Deliver(r: FlushToState)
      requires Sound() && r in readers && r.history.mid && r.start in r.history.offered
      requires forall x :: x in r.history.delivered ==> x <= r.start
      modifies r`history
      ensures Sound() && r.history == Delivered(old(r.history), r.start)
    {
      hide Tracks, Wired, Flat, Ordered, At, ValidPos;
      ghost var rs := Views(readers);
      assert OnTrack(r);
      DeliverTracks(FlatsOf(lists.logs), sequence, r.writer, r.Cur(), r.history);
      r.history := Delivered(r.history, r.start);
      assert Views(readers) == rs;
      forall q | q in readers ensures OnTrack(q) {
        assert q != r ==> old(OnTrack(q));
      }
    }

    lemma NoneBetween(flats: seq<seq<Entry>>, r: FlushToState, filter: (LogId, Entry) -> FilterResult, lo: nat)
      requires |flats| == LOG_ID_MAX
      ensures NoneToSend(flats, r, filter, lo, lo)
    {
    }

    lemma NoneBeyond(flats: seq<seq<Entry>>, r: FlushToState, filter: (LogId, Entry) -> FilterResult, lo: nat, hi: nat)
      requires |flats| == LOG_ID_MAX && NoneToSend(flats, r, filter, lo, hi)
      requires forall id: LogId, i :: id in r.mask && 0 <= i < |flats[id]| ==> flats[id][i].sequence < hi
      ensures NoneToSend(flats, r, filter, lo, UINT64_MAX)
    {
    }

    lemma NoneShorter(flats: seq<seq<Entry>>, r: FlushToState, filter: (LogId, Entry) -> FilterResult, lo: nat,
                      start: nat, h: History, id: LogId, e: Entry)
      requires |flats| == LOG_ID_MAX && TakesNext(flats, r.mask, start, h, id, e)
      requires NoneToSend(flats, r, filter, lo, NextFrom(flats, r.mask, start, h))
      ensures NoneToSend(flats, r, filter, lo, e.sequence)
    {
    }

    lemma SkippedNone(flats: seq<seq<Entry>>, next: nat, r: FlushToState, filter: (LogId, Entry) -> FilterResult, lo: nat,
                      start: nat, h: History, id: LogId, e: Entry)
      requires Ordered(flats, next) && TakesNext(flats, r.mask, start, h, id, e) && !Sends(r, filter, id, e)
      requires NoneToSend(flats, r, filter, lo, NextFrom(flats, r.mask, start, h))
      ensures NoneToSend(flats, r, filter, lo, e.sequence + 1)
    {
      forall b: LogId, j | 0 <= j < |flats[b]| && lo <= flats[b][j].sequence < e.sequence + 1
        ensures !Sends(r, filter, b, flats[b][j])
      {
        if flats[b][j].sequence == e.sequence {
          SameNumber(flats, next, id, e, b, j);
        }
      }
    }

    lemma TracksFacts(flats: seq<seq<Entry>>, r: FlushToState)
      requires Sound() && r in readers && r.Settled() && |flats| == LOG_ID_MAX && Tracks(flats, sequence, r.writer, r.Cur(), r.history)
      ensures forall x :: x in r.history.delivered ==> x < Passed(r.start, r.history)
      ensures (r.history.replay ==> r.history.mid) && (r.history.mid ==> r.start < UINT64_MAX)
    {
    }

    lemma PastTaken(flats: seq<seq<Entry>>, mask: set<LogId>, start: nat, h: History)
      requires |flats| == LOG_ID_MAX && h.mid && !h.replay
      ensures NextFrom(flats, mask, start, h) == start + 1
    {
    }

    lemma NumberBelow(flats: seq<seq<Entry>>, next: nat, id: LogId, e: Entry)
      requires Ordered(flats, next) && e in flats[id]
      ensures e.sequence < next
    {
      assert AllBelow(flats[id], next);
    }

    lemma TakesNextFacts(flats: seq<seq<Entry>>, mask: set<LogId>, start: nat, h: History, id: LogId, e: Entry)
      requires |flats| == LOG_ID_MAX && TakesNext(flats, mask, start, h, id, e)
      ensures id in mask && e in flats[id] && e.sequence >= NextFrom(flats, mask, start, h) >= start
      ensures forall x :: x in h.delivered ==> x <= e.sequence && (x == e.sequence ==> h.mid && x == start)
    {
    }

    /** The lowest number reader r can be sent next. */
    ghost function NextOf(r: FlushToState): nat
      requires |lists.logs| == LOG_ID_MAX
      reads this, lists, r
    {
      NextFrom(FlatsOf(lists.logs), r.mask, r.start, r.history)
    }

    /** The entry reader r was writing lies ahead of it again, and this filter lets it through. */
    ghost predicate SendsAgain(r: FlushToState, filter: (LogId, Entry) -> FilterResult)
      requires |lists.logs| == LOG_ID_MAX
      reads this, lists, r
    {
      SentAgain(FlatsOf(lists.logs), r, filter, r.start, r.history)
    }

    /**
     FlushTo from taking the lock to giving it up: either to write `out` to the client, or because the
     flush is over. A client whose write fails never comes back.
     */
    method FlushTo(r: FlushToState, filter: (LogId, Entry) -> FilterResult) returns (out: Option<LogWithId>, ghost stopped: bool)
      requires Valid() && r in readers
      modifies lists, r
      ensures Valid() && SameContents(old(lists.logs), lists.logs) && FlatsOf(lists.logs) == FlatsOf(old(lists.logs))
      ensures out.Some? ==>
        var id, e := out.value.logId, out.value.entry;
        && e in EntriesOf(id) && Sends(r, filter, id, e) && r.start == e.sequence && r.history.mid && !r.history.replay
        && id in r.mask && (r.writer.privileged || e.uid == r.writer.uid) && filter(id, e) == Write
        && e.sequence >= old(NextOf(r))
        && r.history.delivered == old(r.history.delivered) + [e.sequence]
        && NoneToSend(FlatsOf(lists.logs), r, filter, old(NextOf(r)), e.sequence)
        && (e.sequence in old(r.history.delivered) <==> old(SendsAgain(r, filter)))
      ensures old(SendsAgain(r, filter)) ==> out.Some? && out.value.entry.sequence == old(r.start)
      ensures r.history.again == old(r.history.again) + if old(SendsAgain(r, filter)) then 1 else 0
      ensures stopped ==> out.None? && StoppedAt(FlatsOf(lists.logs), r, filter, old(NextOf(r)), r.start)
      ensures KeptUp(old(r.start), old(r.history), r.start, r.history)
      ensures out.None? ==> r.start > old(r.start) && !r.history.mid && !r.history.replay && r.history.delivered == old(r.history.delivered)
      ensures out.None? ==> r.start == old(r.start) + 1 || r.start <= sequence
      ensures out.None? && !stopped ==>
        && NoneToSend(FlatsOf(lists.logs), r, filter, old(NextOf(r)), UINT64_MAX)
        && CaughtUp(r)
    {
      hide CaughtUp, Tracks, Flat, SameEntries, SameContents, Ordered, Remaining, TakesNext, Placed, NoneToSend, AllRead, S.Agrees, Sound, OnTrack, StoppedAt, NextFrom;
      hide SentAgain;
      ghost var flats, lo, h0, start0 := FlatsOf(lists.logs), NextOf(r), r.history, r.start;
      SoundFacts(r);
      TracksFacts(flats, r);
      var taken := Scan(r, filter);
      stopped, out := false, None;
      if taken.None? {
        CompleteFlush(r, filter, lo);
        NotSentAgain(flats, r, filter, start0, h0, UINT64_MAX);
      } else {
        var id, e := taken.value.logId, taken.value.entry;
        if filter(id, e) == Stop {
          stopped := true;
          SoundFacts(r);
          StoppedNone(flats, sequence, r, filter, lo, id, e);
          NotSentAgain(flats, r, filter, start0, h0, e.sequence + 1);
          FinishFlush(r);
          StopsHere(flats, r, filter, lo, id, e);
        } else {
          SentAgainIff(flats, r, filter, start0, h0, id, e);
          Deliver(r);
          out := taken;
        }
      }
      SameLimits();
    }

    /** The loop of FlushTo up to the next entry that is written or that the filter stops at. */
    method Scan(r: FlushToState, filter: (LogId, Entry) -> FilterResult) returns (taken: Option<LogWithId>)
      requires Sound() && r in readers
      modifies lists, r
      ensures Sound() && r.Settled() && SameContents(old(lists.logs), lists.logs) && FlatsOf(lists.logs) == FlatsOf(old(lists.logs))
      ensures r.history.delivered == old(r.history.delivered) && r.history.again == old(r.history.again)
      ensures KeptUp(old(r.start), old(r.history), r.start, r.history) && (r.start == old(r.start) || r.start < sequence)
      ensures taken.None? ==> AllRead(FlatsOf(lists.logs), r.Cur())
      ensures taken.None? ==> NoneToSend(FlatsOf(lists.logs), r, filter, old(NextOf(r)), NextOf(r))
      ensures taken.Some? ==>
        var id, e := taken.value.logId, taken.value.entry;
        && id in r.mask && e in EntriesOf(id) && Visible(r.writer, e) && filter(id, e) != Skip
        && r.start == e.sequence >= old(NextOf(r)) >= old(r.start) && r.history.mid && !r.history.replay && r.start in r.history.offered
        && (forall x :: x in r.history.delivered ==> x <= r.start)
        && NoneToSend(FlatsOf(lists.logs), r, filter, old(NextOf(r)), e.sequence)
    {
      hide Tracks, Flat, SameEntries, SameContents, Ordered, Remaining, TakesNext, Placed, NoneToSend, AllRead, Sound, OnTrack, NextFrom;
      ghost var flats, lo := FlatsOf(lists.logs), NextOf(r);
      SameContentsReflexive(lists.logs);
      NoneBetween(flats, r, filter, lo);
      ghost var logs0 := lists.logs;
      SoundFacts(r);
      NextAtLeast(flats, r.mask, r.start, r.history);
      while true
        invariant Sound() && r in readers && r.Settled() && SameContents(logs0, lists.logs) && FlatsOf(lists.logs) == flats
        invariant r.history.delivered == old(r.history.delivered) && r.history.again == old(r.history.again)
        invariant lo <= NextFrom(flats, r.mask, r.start, r.history) && NoneToSend(flats, r, filter, lo, NextFrom(flats, r.mask, r.start, r.history))
        invariant KeptUp(old(r.start), old(r.history), r.start, r.history) && (r.start == old(r.start) || r.start < sequence)
        decreases Remaining(flats, r.Cur(), LOG_ID_MAX)
      {
        ghost var logs, start, h := lists.logs, r.start, r.history;
        var unread;
        unread, taken := TakeNext(r);
        SameContentsTransitive(logs0, logs, lists.logs);
        if !unread {
          return;
        }
        if taken.None? {
          continue;
        }
        var id, e := taken.value.logId, taken.value.entry;
        SoundFacts(r);
        TakesNextFacts(flats, r.mask, start, h, id, e);
        NumberBelow(flats, sequence, id, e);
        PastTaken(flats, r.mask, r.start, r.history);
        if !Visible(r.writer, e) || filter(id, e) == Skip {
          SkippedNone(flats, sequence, r, filter, lo, start, h, id, e);
          continue;
        }
        NoneShorter(flats, r, filter, lo, start, h, id, e);
        return;
      }
    }

    lemma NextAtLeast(flats: seq<seq<Entry>>, mask: set<LogId>, start: nat, h: History)
      requires |flats| == LOG_ID_MAX
      ensures NextFrom(flats, mask, start, h) >= start
    {
    }

    /** The entry the filter stops at is not sent either. */
    lemma StoppedNone(flats: seq<seq<Entry>>, next: nat, r: FlushToState, filter: (LogId, Entry) -> FilterResult, lo: nat, id: LogId, e: Entry)
      requires Ordered(flats, next) && e in flats[id] && filter(id, e) == Stop && NoneToSend(flats, r, filter, lo, e.sequence)
      ensures NoneToSend(flats, r, filter, lo, e.sequence + 1)
    {
      forall b: LogId, j | 0 <= j < |flats[b]| && lo <= flats[b][j].sequence < e.sequence + 1
        ensures !Sends(r, filter, b, flats[b][j])
      {
        if flats[b][j].sequence == e.sequence { SameNumber(flats, next, id, e, b, j); }
      }
    }

    /** Everything in the watched logs is behind the reader; all of it that is visible was offered, too late, or before its time. */
    ghost predicate CaughtUp(r: FlushToState)
      requires |lists.logs| == LOG_ID_MAX
      reads this, lists, r
    {
      forall id: LogId, i :: id in r.mask && 0 <= i < |EntriesOf(id)| ==>
        EntriesOf(id)[i].sequence < r.start && (Visible(r.writer, EntriesOf(id)[i]) ==> Accounted(r.history, EntriesOf(id)[i].sequence))
    }

    /** The flush has run out of entries. */
    method CompleteFlush(r: FlushToState, ghost filter: (LogId, Entry) -> FilterResult, ghost lo: nat)
      requires Sound() && r in readers && r.Settled() && AllRead(FlatsOf(lists.logs), r.Cur())
      requires NoneToSend(FlatsOf(lists.logs), r, filter, lo, NextFrom(FlatsOf(lists.logs), r.mask, r.start, r.history))
      modifies r`start, r`history
      ensures Sound() && r.start == old(r.start) + 1 && r.history == old(r.history).(mid := false, replay := false)
      ensures NoneToSend(FlatsOf(lists.logs), r, filter, lo, UINT64_MAX) && CaughtUp(r)
    {
      hide Tracks, Flat, NoneToSend, AllRead, Sound, OnTrack, Ordered, Placed;
      SoundFacts(r);
      EndedFlushIsComplete(FlatsOf(lists.logs), sequence, r.writer, r.Cur(), r.history);
      NextPastAll(FlatsOf(lists.logs), sequence, r.writer, r.Cur(), r.history);
      NoneBeyond(FlatsOf(lists.logs), r, filter, lo, Passed(r.start, r.history));
      FinishFlush(r);
    }

    lemma StopsHere(flats: seq<seq<Entry>>, r: FlushToState, filter: (LogId, Entry) -> FilterResult, lo: nat, id: LogId, e: Entry)
      requires |flats| == LOG_ID_MAX && e in flats[id] && id in r.mask && Visible(r.writer, e) && filter(id, e) == Stop
      requires NoneToSend(flats, r, filter, lo, e.sequence)
      ensures StoppedAt(flats, r, filter, lo, e.sequence + 1)
    {
    }

    lemma SoundFacts(r: FlushToState)
      requires Sound() && r in readers
      ensures r.lists == lists && |lists.logs| == LOG_ID_MAX && Ordered(FlatsOf(lists.logs), sequence) && r.Settled()
      ensures Tracks(FlatsOf(lists.logs), sequence, r.writer, r.Cur(), r.history)
    {
      assert OnTrack(r);
    }

    /**
     A whole flush with nothing in between and a filter that never stops it: out goes exactly what is
     watched, visible, accepted and not below the reader's start, merged over all logs in order of number.
     */
    method FlushAll(r: FlushToState, filter: (LogId, Entry) -> FilterResult) returns (out: seq<LogWithId>)
      requires Valid() && r in readers && !r.history.mid
      requires forall id: LogId, e :: filter(id, e) != Stop
      modifies lists, r
      ensures Valid() && SameContents(old(lists.logs), lists.logs)
      ensures forall i, j :: 0 <= i < j < |out| ==> out[i].entry.sequence < out[j].entry.sequence
      ensures forall id: LogId, e :: LogWithId(id, e) in out <==>
        && id in r.mask && e in EntriesOf(id) && e.sequence >= old(r.start)
        && (r.writer.privileged || e.uid == r.writer.uid) && filter(id, e) == Write
    {
      hide Valid, Flat, SameEntries, SameContents, NoneToSend, SentUpTo, Ordered;
      ValidFacts(r);
      ghost var lo, flats := r.start, FlatsOf(lists.logs);
      out := [];
      SameContentsReflexive(lists.logs);
      ghost var logs0 := lists.logs;
      NoneYet(flats, r, filter, lo);
      while true
        invariant Valid() && r in readers && |lists.logs| == LOG_ID_MAX && SameContents(logs0, lists.logs) && FlatsOf(lists.logs) == flats
        invariant r.history.mid ==> !r.history.replay
        invariant Passed(r.start, r.history) >= lo && (!r.history.mid ==> r.start == lo)
        invariant SentUpTo(flats, r, filter, lo, Passed(r.start, r.history), out)
        decreases if r.history.mid then UINT64_MAX - r.start else UINT64_MAX + 1
      {
        ValidFacts(r);
        ghost var logs, mid := lists.logs, Passed(r.start, r.history);
        var next, stopped := FlushTo(r, filter);
        ValidFacts(r);
        SameContentsTransitive(logs0, logs, lists.logs);
        SameContentsFlats(logs, lists.logs);
        if next.None? {
          SentAll(flats, r, filter, lo, mid, UINT64_MAX, out);
          SentIncreasing(flats, r, filter, lo, mid, out);
          break;
        }
        SentOneMore(flats, sequence, r, filter, lo, mid, out, next.value);
        out := out + [next.value];
      }
    }

    lemma ValidFacts(r: FlushToState)
      requires Valid() && r in readers
      ensures |lists.logs| == LOG_ID_MAX && Ordered(FlatsOf(lists.logs), sequence)
      ensures r.history.mid ==> r.start < UINT64_MAX
      ensures forall id: LogId, i :: 0 <= i < |FlatsOf(lists.logs)[id]| ==> FlatsOf(lists.logs)[id][i].sequence < UINT64_MAX
    {
      assert OnTrack(r);
      forall id: LogId ensures AllBelow(FlatsOf(lists.logs)[id], sequence) {
      }
    }

    lemma SentIncreasing(flats: seq<seq<Entry>>, r: FlushToState, filter: (LogId, Entry) -> FilterResult, lo: nat, hi: nat, out: seq<LogWithId>)
      requires |flats| == LOG_ID_MAX && SentUpTo(flats, r, filter, lo, hi, out)
      ensures forall i, j :: 0 <= i < j < |out| ==> out[i].entry.sequence < out[j].entry.sequence
    {
    }
  }
}
