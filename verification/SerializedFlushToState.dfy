/**
 SerializedFlushToState: a reader's place in each log, as an object that attaches itself to the chunks
 it points into. `lists` is the buffer's array of chunk lists, which it shares and changes.
 */
module SerializedFlushToState {
  import opened Bytes
  import opened EntryLayout
  import opened SerializedChunk
  import opened SerializedLists
  import opened FlatReader
  import opened SerializedWiring

  const UINT64_MAX := 0xFFFF_FFFF_FFFF_FFFF

  class LogLists {
    var logs: seq<LogList<FlushToState>>

    constructor ()
      ensures logs == seq(LOG_ID_MAX, i => LogList(0, []))
    {
      logs := seq(LOG_ID_MAX, i => LogList(0, []));
    }
  }

  ghost function Views(all: set<FlushToState>): (m: map<FlushToState, Reader>)
    reads all
    ensures m.Keys == all && forall r :: r in all ==> m[r] == r.View()
  {
    map r | r in all :: r.View()
  }

  /** Every reader in `all` shares `lists`, and cursors, attachments and reference counts agree. */
  ghost predicate Consistent(lists: LogLists, all: set<FlushToState>)
    reads lists, all
  {
    (forall r :: r in all ==> r.lists == lists) && Wired(lists.logs, Views(all))
  }

  class FlushToState {
    const lists: LogLists
    const mask: set<LogId>
    const writer: Writer
    var start: nat
    var positions: map<LogId, Position>
    var needed: set<LogId>
    ghost var history: History

    ghost function View(): Reader
      reads this
    {
      Reader(mask, positions, needed)
    }

    ghost predicate Settled()
      reads this, lists
    {
      |lists.logs| == LOG_ID_MAX && Placed(lists.logs, View())
    }

    ghost function Cur(): Cursors
      requires Settled()
      reads this, lists
    {
      Cursors(mask, start, AtOf(lists.logs, View()))
    }

    constructor (start: nat, mask: set<LogId>, lists: LogLists, writer: Writer)
      ensures this.lists == lists && this.mask == mask && this.writer == writer && this.start == start
      ensures positions == map[] && needed == mask
      ensures history == History(false, false, start, {}, {}, [], 0)
    {
      this.start, this.mask, this.lists, this.writer := start, mask, lists, writer;
      positions, needed := map[], mask;
      history := History(false, false, start, {}, {}, [], 0);
    }

    method CreateLogPosition(id: LogId, ghost all: set<FlushToState>)
      requires Consistent(lists, all) && this in all && id in mask && id !in positions
      requires lists.logs[id].chunks != []   // CHECK(!logs_[log_id].empty())
      requires Sorted(Flat(lists.logs[id].chunks))
      modifies this`positions, lists
      ensures Consistent(lists, all) && SameContents(old(lists.logs), lists.logs)
      ensures id in positions && positions == old(positions)[id := positions[id]]
      ensures ValidPos(lists.logs[id], positions[id]) && SplitsAt(lists.logs[id], positions[id], start)
    {
      hide Linked, Flags, Shaped, SplitsAt, WithChunk, SameEntries, Wired, Sorted, Flat, At, Size, AllBelow;
      WiredOne(lists.logs, Views(all), id);
      var l := lists.logs[id];
      var it := FindChunk(l.chunks);
      var chunk := Attach(l.chunks[it], this);
      var readOffset := FindOffset(chunk);
      var p := Position(l.base + it, readOffset);
      SearchLands(l, p, start);
      AttachAt(id, p, all);
      assert SameEntries(l, lists.logs[id]);
      SplitsSame(l, lists.logs[id], p, start);
    }

    /** Attaches to the chunk found and sets the cursor. */
    method AttachAt(id: LogId, p: Position, ghost all: set<FlushToState>)
      requires Consistent(lists, all) && this in all && id in mask && id !in positions
      requires |lists.logs| == LOG_ID_MAX && ValidPos(lists.logs[id], p)
      modifies this`positions, lists
      ensures Consistent(lists, all) && SameContents(old(lists.logs), lists.logs) && positions == old(positions)[id := p]
    {
      hide Wired, SameEntries, WithChunk;
      ghost var rs := Views(all);
      var l := lists.logs[id];
      var chunk := Attach(ChunkAt(l, p), this);
      AttachWired(lists.logs, rs, this, id, p);
      WithChunkSame(lists.logs, id, p, chunk);
      lists.logs := lists.logs[id := WithChunk(l, p, chunk)];
      positions := positions[id := p];
      assert Views(all) == rs[this := View()];
    }

    /** The first chunk that can hold an entry numbered at least `start`, else the back one. */
    method FindChunk(chunks: seq<Chunk<FlushToState>>) returns (it: nat)
      requires chunks != [] && Shaped(chunks) && Sorted(Flat(chunks))
      ensures it < |chunks| && AllBelow(Flat(chunks[..it]), start)
      ensures start <= chunks[it].highest || it == |chunks| - 1
    {
      it := 0;
      while it < |chunks| && start > chunks[it].highest
        invariant it <= |chunks|
        invariant AllBelow(Flat(chunks[..it]), start)
        invariant it > 0 ==> AllBelow(Flat(chunks[..it - 1]), start)
      {
        SkipChunk(chunks, it, start);
        it := it + 1;
      }
      if it == |chunks| {
        it := it - 1;
      }
    }

    /** Walks a chunk entry by entry up to the first one numbered at least `start`. */
    method FindOffset(chunk: Chunk<FlushToState>) returns (readOffset: nat)
      requires Accessible(chunk)   // CHECK in log_entry()
      ensures OnBoundary(chunk.entries, readOffset)
      ensures var k := IndexAt(chunk.entries, readOffset);
        && (forall i :: 0 <= i < k ==> chunk.entries[i].sequence < start)
        && (k < |chunk.entries| ==> chunk.entries[k].sequence >= start)
    {
      readOffset := 0;
      while readOffset < WriteOffset(chunk)
        invariant OnBoundary(chunk.entries, readOffset)
        invariant forall i :: 0 <= i < IndexAt(chunk.entries, readOffset) ==> chunk.entries[i].sequence < start
        decreases WriteOffset(chunk) - readOffset
      {
        BoundaryStep(chunk.entries, readOffset);
        var entry := chunk.entries[IndexAt(chunk.entries, readOffset)];
        if entry.sequence >= start {
          return;
        }
        readOffset := readOffset + TotalLen(entry);
      }
      BoundaryStep(chunk.entries, readOffset);
    }

    method UpdateLogsNeeded(id: LogId, ghost all: set<FlushToState>)
      requires Consistent(lists, all) && this in all && id in positions && ValidPos(lists.logs[id], positions[id])
      modifies this`positions, this`needed, lists
      ensures Consistent(lists, all) && SameContents(old(lists.logs), lists.logs)
      ensures id in positions && positions == old(positions)[id := positions[id]]
      ensures needed == old(needed) + {id} || needed == old(needed) - {id}
      ensures ValidPos(lists.logs[id], positions[id]) && At(lists.logs[id], positions[id]) == old(At(lists.logs[id], positions[id]))
      ensures id in needed <==> At(lists.logs[id], positions[id]) == |Flat(lists.logs[id].chunks)|
    {
      hide Linked, Flags, Shaped, Wired, Flat, At;
      WiredOne(lists.logs, Views(all), id);
      ghost var rs := Views(all);
      var l, p := lists.logs[id], positions[id];
      AtEntry(l, p);   // read_offset > write_offset never happens
      assert positions[id := p] == positions;
      if p.offset < WriteOffset(ChunkAt(l, p)) {
        MoveWired(lists.logs, rs, this, id, p, false);
        needed := needed - {id};
        assert Views(all) == rs[this := View()];
      } else if p.chunk + 1 == l.base + |l.chunks| {
        AtBack(l, p);
        MoveWired(lists.logs, rs, this, id, p, true);
        needed := needed + {id};
        assert Views(all) == rs[this := View()];
      } else {
        AtNextChunk(l, p);
        NextChunk(id, all);
      }
    }

    /** The end of a chunk that is not the back one was reached: move over to the next. */
    method NextChunk(id: LogId, ghost all: set<FlushToState>)
      requires Consistent(lists, all) && this in all && id in positions && ValidPos(lists.logs[id], positions[id])
      requires var l, p := lists.logs[id], positions[id];
        p.offset == WriteOffset(ChunkAt(l, p)) && p.chunk + 1 < l.base + |l.chunks|
      modifies this`positions, this`needed, lists
      ensures Consistent(lists, all) && SameContents(old(lists.logs), lists.logs)
      ensures positions == old(positions)[id := Position(old(positions)[id].chunk + 1, 0)]
      ensures needed == old(needed) + {id} || needed == old(needed) - {id}
      ensures ValidPos(lists.logs[id], positions[id]) && At(lists.logs[id], positions[id]) == old(At(lists.logs[id], positions[id]))
      ensures id in needed <==> At(lists.logs[id], positions[id]) == |Flat(lists.logs[id].chunks)|
    {
      hide Linked, Flags, Wired, Flat, At, StepChunk, SameContents;
      EnterNext(id, all);
      ghost var ws := Views(all);
      WiredOne(lists.logs, ws, id);
      var m, q := lists.logs[id], positions[id];
      AtEntry(m, q);
      if WriteOffset(ChunkAt(m, q)) == 0 {
        AtBack(m, q);
      } else {
        MoveWired(lists.logs, ws, this, id, q, false);
        needed := needed - {id};
        assert positions[id := q] == positions;
        assert Views(all) == ws[this := View()];
      }
    }

    /** Detaches from the chunk that is read to its end and attaches to the one after it, at its start. */
    method EnterNext(id: LogId, ghost all: set<FlushToState>)
      requires Consistent(lists, all) && this in all && id in positions && ValidPos(lists.logs[id], positions[id])
      requires var l, p := lists.logs[id], positions[id];
        p.offset == WriteOffset(ChunkAt(l, p)) && p.chunk + 1 < l.base + |l.chunks|
      modifies this`positions, this`needed, lists
      ensures Consistent(lists, all) && SameContents(old(lists.logs), lists.logs)
      ensures positions == old(positions)[id := Position(old(positions)[id].chunk + 1, 0)] && needed == old(needed) + {id}
      ensures ValidPos(lists.logs[id], positions[id]) && At(lists.logs[id], positions[id]) == old(At(lists.logs[id], positions[id]))
    {
      hide Linked, Flags, Wired, Flat, At, StepChunk;
      WiredOne(lists.logs, Views(all), id);
      ghost var rs := Views(all);
      var l, p := lists.logs[id], positions[id];
      var q := Position(p.chunk + 1, 0);
      StepChunkWired(lists.logs, rs, this, id);
      var m := StepChunk(l, p, this);
      AtNextChunk(l, p);
      lists.logs := lists.logs[id := m];
      SameAt(l, m, q);
      positions := positions[id := q];
      needed := needed + {id};
      assert Views(all) == rs[this := View()];
    }

    /** CreateLogPosition and UpdateLogsNeeded in terms of the flat sequences. */
    method Locate(id: LogId, ghost all: set<FlushToState>)
      requires Consistent(lists, all) && this in all && Settled() && id in mask && id !in positions
      requires lists.logs[id].chunks != [] && Sorted(Flat(lists.logs[id].chunks))
      modifies this`positions, lists
      ensures Consistent(lists, all) && SameContents(old(lists.logs), lists.logs) && Settled()
      ensures id in positions && positions == old(positions)[id := positions[id]]
      ensures Cur() == old(Cur()).(at := old(Cur()).at[id := Cur().at[id]])
      ensures SplitAt(FlatsOf(lists.logs)[id], Cur().at[id], start)
    {
      hide Wired, Flat, SplitsAt, SplitAt;
      ghost var v, logs := View(), lists.logs;
      CreateLogPosition(id, all);
      CursorSet(logs, lists.logs, v, View(), id, positions[id]);
      SplitsFlat(lists.logs, id, positions[id], start);
    }

    method Renew(id: LogId, ghost all: set<FlushToState>)
      requires Consistent(lists, all) && this in all && Settled() && id in positions
      modifies this`positions, this`needed, lists
      ensures Consistent(lists, all) && SameContents(old(lists.logs), lists.logs) && Settled()
      ensures id in positions && positions == old(positions)[id := positions[id]]
      ensures needed == old(needed) + {id} || needed == old(needed) - {id}
      ensures Cur() == old(Cur()) && UpToDate(FlatsOf(lists.logs), Cur(), needed, id)
    {
      hide Wired, Flat, ValidPos, At, SameEntries;
      ghost var v, logs := View(), lists.logs;
      UpdateLogsNeeded(id, all);
      CursorSet(logs, lists.logs, v, View(), id, positions[id]);
      AtBound(lists.logs[id], positions[id]);
      assert Cur().at == old(Cur()).at;
    }

    /** One round of CheckForNewLogs. */
    method CheckLog(id: LogId, ghost all: set<FlushToState>)
      requires Consistent(lists, all) && this in all && Settled() && Sorted(Flat(lists.logs[id].chunks))
      modifies this`positions, this`needed, lists
      ensures Consistent(lists, all) && SameContents(old(lists.logs), lists.logs) && Settled()
      ensures Extends(FlatsOf(lists.logs), old(Cur()), Cur()) && UpToDate(FlatsOf(lists.logs), Cur(), needed, id)
      ensures positions.Keys <= old(positions).Keys + {id} && needed - {id} == old(needed) - {id}
    {
      hide Wired, Flat, SplitAt, Placed, Extends, Flags, At, ValidPos, UpToDate, SameContents;
      WiredFlags(lists.logs, Views(all), this);
      SameContentsReflexive(lists.logs);
      if id !in needed {
        StillUnread(id);
        ExtendsSame(FlatsOf(lists.logs), Cur());
        return;
      }
      if id !in positions {
        if |lists.logs[id].chunks| == 0 {
          NothingThere(id);
          ExtendsSame(FlatsOf(lists.logs), Cur());
          return;
        }
        ghost var c := Cur();
        Locate(id, all);
        ExtendsOne(FlatsOf(lists.logs), c, id, Cur().at[id]);
      } else {
        ExtendsSame(FlatsOf(lists.logs), Cur());
      }
      label located:
      Renew(id, all);
      SameContentsFlats(old@located(lists.logs), lists.logs);
      SameContentsTransitive(old(lists.logs), old@located(lists.logs), lists.logs);
    }

    lemma StillUnread(id: LogId)
      requires Settled() && Flags(lists.logs, View()) && id !in needed
      ensures UpToDate(FlatsOf(lists.logs), Cur(), needed, id)
    {
      if id in positions {
        PendingUnlessNeeded(lists.logs, View(), id);
        AtEntry(lists.logs[id], positions[id]);
      }
    }

    lemma NothingThere(id: LogId)
      requires Settled() && lists.logs[id].chunks == [] && id !in positions
      ensures UpToDate(FlatsOf(lists.logs), Cur(), needed, id)
    {
    }

    method CheckForNewLogs(ghost all: set<FlushToState>)
      requires Consistent(lists, all) && this in all && Settled()
      requires forall id: LogId :: Sorted(Flat(lists.logs[id].chunks))
      modifies this`positions, this`needed, lists
      ensures Consistent(lists, all) && SameContents(old(lists.logs), lists.logs) && Settled()
      ensures Extends(FlatsOf(lists.logs), old(Cur()), Cur())
      ensures forall id: LogId :: UpToDate(FlatsOf(lists.logs), Cur(), needed, id)
    {
      hide Wired, Flat, Placed, Extends;
      ghost var c0, logs0 := Cur(), lists.logs;
      ghost var flats := FlatsOf(logs0);
      ExtendsSame(flats, c0);
      for i := 0 to LOG_ID_MAX
        invariant Consistent(lists, all) && SameContents(logs0, lists.logs) && Settled()
        invariant FlatsOf(lists.logs) == flats
        invariant Extends(flats, c0, Cur())
        invariant forall id: LogId :: id < i ==> UpToDate(flats, Cur(), needed, id)
      {
        ghost var c, n, logs := Cur(), needed, lists.logs;
        assert Flat(lists.logs[i].chunks) == flats[i] == Flat(logs0[i].chunks);
        CheckLog(i, all);
        SameContentsFlats(logs, lists.logs);
        SameContentsTransitive(logs0, logs, lists.logs);
        ExtendsTransitive(flats, c0, c, Cur());
        forall id: LogId | id < i
          ensures UpToDate(flats, Cur(), needed, id)
        {
          UpToDateKept(flats, c, n, Cur(), needed, id, i);
        }
      }
    }

    lemma SplitsFlat(logs: seq<LogList<FlushToState>>, id: LogId, p: Position, s: nat)
      requires |logs| == LOG_ID_MAX && ValidPos(logs[id], p) && SplitsAt(logs[id], p, s)
      ensures SplitAt(FlatsOf(logs)[id], At(logs[id], p), s)
    {
    }

    lemma UnreadNotNeeded(flats: seq<seq<Entry>>, c: Cursors, needed: set<LogId>, b: LogId)
      requires |flats| == LOG_ID_MAX && UpToDate(flats, c, needed, b) && b in c.at && c.at[b] < |flats[b]|
      ensures b !in needed
    {
    }

    lemma PendingUnlessNeeded(logs: seq<LogList<FlushToState>>, v: Reader, id: LogId)
      requires |logs| == LOG_ID_MAX && Flags(logs, v) && id in v.positions && id !in v.needed
      ensures Pending(logs[id], v.positions[id])
    {
    }

    method HasUnreadLogs(ghost all: set<FlushToState>) returns (unread: bool)
      requires Consistent(lists, all) && this in all && Settled()
      requires forall id: LogId :: Sorted(Flat(lists.logs[id].chunks))
      modifies this`positions, this`needed, lists
      ensures Consistent(lists, all) && SameContents(old(lists.logs), lists.logs) && Settled()
      ensures Extends(FlatsOf(lists.logs), old(Cur()), Cur())
      ensures forall id: LogId :: UpToDate(FlatsOf(lists.logs), Cur(), needed, id)
      ensures unread <==> exists id :: id in positions && id !in needed
    {
      hide Wired, Flat, Placed, Extends, UpToDate;
      CheckForNewLogs(all);
      for i := 0 to LOG_ID_MAX
        invariant forall id :: id in positions && id < i ==> id in needed
      {
        if i in positions && i !in needed {
          return true;
        }
      }
      return false;
    }

    /** Takes the lowest-numbered entry at any cursor with an unread entry, and steps over it. */
    method PopNextUnreadLog(ghost all: set<FlushToState>) returns (id: LogId, entry: Entry)
      requires Consistent(lists, all) && this in all && Settled()
      requires exists id :: id in positions && id !in needed
      requires forall id: LogId :: AllBelow(Flat(lists.logs[id].chunks), UINT64_MAX)
      requires forall id: LogId :: UpToDate(FlatsOf(lists.logs), Cur(), needed, id)
      modifies this`positions, this`needed
      ensures Consistent(lists, all) && Settled() && needed == old(needed) + {id}
      ensures Located(FlatsOf(lists.logs), old(Cur())) && NextIs(FlatsOf(lists.logs), old(Cur()), id)
      ensures entry == FlatsOf(lists.logs)[id][old(Cur()).at[id]] && Cur() == Advance(old(Cur()), id)
    {
      hide Wired, Flat, Flags, ValidPos, At, EntryAt, UpToDate, Located, Placed;
      ghost var flats, c := FlatsOf(lists.logs), Cur();
      WiredFlags(lists.logs, Views(all), this);
      UpToDateLocated(flats, c, needed);
      forall b | b in positions && b !in needed
        ensures Pending(lists.logs[b], positions[b])
      {
        PendingUnlessNeeded(lists.logs, View(), b);
      }
      id := FindLowest();
      forall b | b in c.at && c.at[b] < |flats[b]|
        ensures b !in needed
      {
        UnreadNotNeeded(flats, c, needed, b);
      }
      entry := StepOver(id, all);
    }

    /** The cursor into log `id` moves past the entry it is at, and the log is marked to be looked at again. */
    method StepOver(id: LogId, ghost all: set<FlushToState>) returns (entry: Entry)
      requires Consistent(lists, all) && this in all && Settled() && id in positions && Pending(lists.logs[id], positions[id])
      modifies this`positions, this`needed
      ensures Consistent(lists, all) && Settled() && needed == old(needed) + {id}
      ensures entry == old(EntryAt(lists.logs[id], positions[id]))
      ensures Cur() == Advance(old(Cur()), id)
    {
      hide Wired, Flat, ValidPos, At, EntryAt;
      var l, p := lists.logs[id], positions[id];
      ghost var v, rs := View(), Views(all);
      entry := EntryAt(l, p);
      StepEntry(l, p);
      var q := Position(p.chunk, p.offset + TotalLen(entry));
      MoveWired(lists.logs, rs, this, id, q, true);
      positions := positions[id := q];
      needed := needed + {id};
      assert Views(all) == rs[this := View()];
      SameContentsReflexive(lists.logs);
      CursorSet(lists.logs, lists.logs, v, View(), id, q);
    }

    /** The loop of PopNextUnreadLog. */
    method FindLowest() returns (id: LogId)
      requires |lists.logs| == LOG_ID_MAX
      requires exists id :: id in positions && id !in needed
      requires forall b :: b in positions && b !in needed ==> Pending(lists.logs[b], positions[b])
      requires forall id: LogId :: AllBelow(Flat(lists.logs[id].chunks), UINT64_MAX)
      ensures id in positions && id !in needed
      ensures forall b :: b in positions && b !in needed ==>
        EntryAt(lists.logs[id], positions[id]).sequence <= EntryAt(lists.logs[b], positions[b]).sequence
    {
      hide Flat, EntryAt, At, ValidPos;
      var minSequence: nat := UINT64_MAX;
      var found: Option<LogId> := None;
      for i := 0 to LOG_ID_MAX
        invariant found.None? ==> minSequence == UINT64_MAX && forall b :: b in positions && b !in needed ==> b >= i
        invariant found.Some? ==> found.value in positions && found.value !in needed
        invariant found.Some? ==> minSequence == EntryAt(lists.logs[found.value], positions[found.value]).sequence
        invariant forall b :: b in positions && b !in needed && b < i ==> minSequence <= EntryAt(lists.logs[b], positions[b]).sequence
      {
        if i in positions && i !in needed {
          var e := EntryAt(lists.logs[i], positions[i]);
          assert AllBelow(Flat(lists.logs[i].chunks), UINT64_MAX);
          if e.sequence < minSequence {
            found, minSequence := Some(i), e.sequence;
          }
        }
      }
      assert found.Some?;   // CHECK_NE(nullptr, entry)
      id := found.value;
    }

    /** Called before the chunk under a cursor goes away: give the cursor up, to be located again later. */
    method Prune(id: LogId, ghost all: set<FlushToState>)
      requires Consistent(lists, all) && this in all && id in positions   // CHECK(log_positions_[log_id].has_value())
      modifies this`positions, this`needed, lists
      ensures Consistent(lists, all) && SameContents(old(lists.logs), lists.logs)
      ensures positions == old(positions) - {id} && needed == old(needed) + {id}
      ensures var l, p := old(lists.logs)[id], old(positions)[id];
        && Live(l, p) && this in ChunkAt(l, p).readers && ChunkAt(l, p).refCount > 0
        && lists.logs == old(lists.logs)[id := WithChunk(l, p, Detach(ChunkAt(l, p), this))]
    {
      hide Wired, Flat, Linked, Shaped, Flags, SameEntries;
      WiredOne(lists.logs, Views(all), id);
      ghost var rs := Views(all);
      var l, p := lists.logs[id], positions[id];
      DetachWired(lists.logs, rs, this, id);
      var c := Detach(ChunkAt(l, p), this);
      WithChunkSame(lists.logs, id, p, c);
      lists.logs := lists.logs[id := WithChunk(l, p, c)];
      positions := positions - {id};
      needed := needed + {id};
      assert Views(all) == rs[this := View()];
    }

    /** Destructor: detach from every chunk still pointed into. */
    method Destroy(ghost all: set<FlushToState>)
      requires Consistent(lists, all) && this in all
      modifies this`positions, this`needed, lists
      ensures Consistent(lists, all) && SameContents(old(lists.logs), lists.logs)
      ensures positions == map[]
    {
      hide Wired, Flat, Linked, Shaped, Flags, SameEntries;
      WiredOne(lists.logs, Views(all), 0);
      SameContentsReflexive(lists.logs);
      ghost var logs0 := lists.logs;
      for i := 0 to LOG_ID_MAX
        invariant Consistent(lists, all) && SameContents(logs0, lists.logs)
        invariant forall id :: id in positions ==> id >= i
      {
        if i in positions {
          ghost var logs := lists.logs;
          Prune(i, all);
          SameContentsTransitive(logs0, logs, lists.logs);
        }
      }
    }
  }
}
