/**
 All eight chunk lists together with all readers: every cursor a reader holds is mirrored by the
 chunk it points into, whatever step is taken. Also the view of this state as flat sequences.
 */
module SerializedWiring {
  import opened Bytes
  import opened EntryLayout
  import opened SerializedChunk
  import opened SerializedLists
  import opened FlatReader

  /** log_mask_, log_positions_ and logs_needed_from_next_position_ of a SerializedFlushToState. */
  datatype Reader = Reader(mask: set<LogId>, positions: map<LogId, Position>, needed: set<LogId>)

  /** There is an unread entry in the cursor's own chunk. */
  predicate Pending<R>(l: LogList<R>, p: Position)
  {
    ValidPos(l, p) && p.offset < WriteOffset(ChunkAt(l, p))
  }

  /** LogPosition::log_entry: the entry at a cursor. */
  function EntryAt<R>(l: LogList<R>, p: Position): (e: Entry)
    requires Pending(l, p)
    ensures At(l, p) < |Flat(l.chunks)| && e == Flat(l.chunks)[At(l, p)]
  {
    AtEntry(l, p);
    ChunkAt(l, p).entries[IndexAt(ChunkAt(l, p).entries, p.offset)]
  }

  /** Stepping over it stays in the chunk and advances the flat index by one. */
  lemma StepEntry<R>(l: LogList<R>, p: Position)
    requires Pending(l, p)
    ensures var q := Position(p.chunk, p.offset + TotalLen(EntryAt(l, p)));
      ValidPos(l, q) && At(l, q) == At(l, p) + 1
  {
    AtEntry(l, p);
  }

  /** Cursors only for watched logs; a log not marked as needing more has an unread entry at its cursor. */
  ghost predicate Flags<R>(logs: seq<LogList<R>>, v: Reader)
    requires |logs| == LOG_ID_MAX
  {
    && v.positions.Keys <= v.mask && v.needed <= v.mask && v.mask - v.positions.Keys <= v.needed
    && (forall id :: id in v.positions && id !in v.needed ==> Pending(logs[id], v.positions[id]))
  }

  /** Who has a cursor into log `id`, and where. */
  ghost function CursorsIn<R>(rs: map<R, Reader>, id: LogId): map<R, Position>
  {
    map r | r in rs && id in rs[r].positions :: rs[r].positions[id]
  }

  ghost predicate Wired<R>(logs: seq<LogList<R>>, rs: map<R, Reader>)
  {
    && |logs| == LOG_ID_MAX
    && (forall id: LogId :: Shaped(logs[id].chunks))
    && (forall id: LogId :: Linked(logs[id], CursorsIn(rs, id)))
    && (forall r :: r in rs ==> Flags(logs, rs[r]))
  }

  lemma WiredOne<R>(logs: seq<LogList<R>>, rs: map<R, Reader>, id: LogId)
    requires Wired(logs, rs)
    ensures |logs| == LOG_ID_MAX && Shaped(logs[id].chunks) && Linked(logs[id], CursorsIn(rs, id))
  {
  }

  // ---- The flat view ----

  ghost function FlatsOf<R>(logs: seq<LogList<R>>): (f: seq<seq<Entry>>)
    requires |logs| == LOG_ID_MAX
    ensures |f| == LOG_ID_MAX
    ensures forall id: LogId :: f[id] == Flat(logs[id].chunks)
  {
    seq(LOG_ID_MAX, i requires 0 <= i < LOG_ID_MAX => Flat(logs[i].chunks))
  }

  ghost predicate Placed<R>(logs: seq<LogList<R>>, v: Reader)
    requires |logs| == LOG_ID_MAX
  {
    forall id :: id in v.positions ==> ValidPos(logs[id], v.positions[id])
  }

  ghost function AtOf<R>(logs: seq<LogList<R>>, v: Reader): (m: map<LogId, nat>)
    requires |logs| == LOG_ID_MAX && Placed(logs, v)
    ensures m.Keys == v.positions.Keys
    ensures forall id :: id in m ==> m[id] == At(logs[id], v.positions[id])
  {
    map id | id in v.positions :: At(logs[id], v.positions[id])
  }

  lemma WiredPlaced<R>(logs: seq<LogList<R>>, rs: map<R, Reader>, r: R)
    requires Wired(logs, rs) && r in rs
    ensures Placed(logs, rs[r])
    ensures forall id :: id in rs[r].positions ==> Holds(logs[id], rs[r].positions[id], r)
  {
    forall id | id in rs[r].positions
      ensures Holds(logs[id], rs[r].positions[id], r)
    {
      assert Linked(logs[id], CursorsIn(rs, id));
      assert r in CursorsIn(rs, id);
    }
  }

  // ---- One reader changes its cursor into one log ----

  /** Only the cursor into log `id` may differ. */
  predicate SameElsewhere(u: Reader, v: Reader, id: LogId)
  {
    u.positions - {id} == v.positions - {id}
  }

  lemma OtherCursors<R>(rs: map<R, Reader>, r: R, v: Reader, id: LogId, b: LogId)
    requires r in rs && b != id
    requires SameElsewhere(rs[r], v, id)
    ensures CursorsIn(rs[r := v], b) == CursorsIn(rs, b)
  {
    assert b in v.positions <==> b in v.positions - {id};
    assert b in rs[r].positions <==> b in rs[r].positions - {id};
    assert b in v.positions ==> v.positions[b] == (v.positions - {id})[b] == rs[r].positions[b];
  }

  lemma FlagsSame<R>(logs: seq<LogList<R>>, id: LogId, l: LogList<R>, v: Reader)
    requires |logs| == LOG_ID_MAX && SameEntries(logs[id], l) && Flags(logs, v)
    ensures Flags(logs[id := l], v)
  {
    forall b | b in v.positions && b !in v.needed
      ensures Pending(logs[id := l][b], v.positions[b])
    {
      assert Pending(logs[b], v.positions[b]);
      if b == id { SameAt(logs[id], l, v.positions[b]); }
    }
  }

  /**
   Reader r changes its cursor into log `id`, and that log changes attachments to match: if the two agree
   there, everything stays wired.
   */
  lemma RewireOne<R>(logs: seq<LogList<R>>, rs: map<R, Reader>, r: R, v: Reader, id: LogId, l: LogList<R>)
    requires Wired(logs, rs) && r in rs && SameEntries(logs[id], l) && Shaped(l.chunks)
    requires SameElsewhere(rs[r], v, id)
    requires Linked(l, CursorsIn(rs[r := v], id)) && Flags(logs[id := l], v)
    ensures Wired(logs[id := l], rs[r := v])
  {
    var ms, ws := logs[id := l], rs[r := v];
    forall b: LogId
      ensures Shaped(ms[b].chunks) && Linked(ms[b], CursorsIn(ws, b))
    {
      assert Shaped(logs[b].chunks) && Linked(logs[b], CursorsIn(rs, b));
      if b != id { OtherCursors(rs, r, v, id, b); }
    }
    forall q | q in ws
      ensures Flags(ms, ws[q])
    {
      if q != r { FlagsSame(logs, id, l, rs[q]); }
    }
  }

  lemma ShapedSame<R>(cs: seq<Chunk<R>>, j: nat, c: Chunk<R>)
    requires Shaped(cs) && j < |cs|
    requires c.entries == cs[j].entries && c.writable == cs[j].writable && c.compressedLen == cs[j].compressedLen
    requires c.capacity == cs[j].capacity && c.highest == cs[j].highest
    ensures Shaped(cs[j := c])
  {
    assert HighestOk(cs[j]);
    var ds := cs[j := c];
    forall i | 0 <= i < |ds| ensures HighestOk(ds[i]) { assert HighestOk(cs[i]); }
  }

  function WithPosition(v: Reader, id: LogId, p: Position): Reader { v.(positions := v.positions[id := p]) }
  function WithoutPosition(v: Reader, id: LogId): Reader { v.(positions := v.positions - {id}, needed := v.needed + {id}) }

  lemma FlagsChanged<R>(logs: seq<LogList<R>>, v: Reader, id: LogId, p: Position)
    requires |logs| == LOG_ID_MAX && Flags(logs, v)
    ensures id in v.positions ==> Flags(logs, WithoutPosition(v, id))
    ensures id in v.mask && id !in v.positions ==> Flags(logs, WithPosition(v, id, p))
  {
  }

  lemma AttachWired<R>(logs: seq<LogList<R>>, rs: map<R, Reader>, r: R, id: LogId, p: Position)
    requires Wired(logs, rs) && r in rs && id in rs[r].mask && id !in rs[r].positions && ValidPos(logs[id], p)
    ensures Wired(logs[id := WithChunk(logs[id], p, Attach(ChunkAt(logs[id], p), r))], rs[r := WithPosition(rs[r], id, p)])
  {
    hide Linked, Shaped, Flags;
    var c := Attach(ChunkAt(logs[id], p), r);
    var l, v := WithChunk(logs[id], p, c), WithPosition(rs[r], id, p);
    assert Shaped(logs[id].chunks) && Linked(logs[id], CursorsIn(rs, id)) && Flags(logs, rs[r]);
    assert Shaped(l.chunks) by { ShapedSame(logs[id].chunks, p.chunk - logs[id].base, c); }
    assert Linked(l, CursorsIn(rs[r := v], id)) by {
      AttachLinked(logs[id], CursorsIn(rs, id), r, p);
      assert CursorsIn(rs[r := v], id) == CursorsIn(rs, id)[r := p];
    }
    assert Flags(logs[id := l], v) by {
      FlagsSame(logs, id, l, rs[r]);
      FlagsChanged(logs[id := l], rs[r], id, p);
    }
    assert SameElsewhere(rs[r], v, id);
    RewireOne(logs, rs, r, v, id, l);
  }

  lemma DetachWired<R>(logs: seq<LogList<R>>, rs: map<R, Reader>, r: R, id: LogId)
    requires Wired(logs, rs) && r in rs && id in rs[r].positions
    ensures Holds(logs[id], rs[r].positions[id], r) && ChunkAt(logs[id], rs[r].positions[id]).refCount > 0
    ensures var p := rs[r].positions[id];
      Wired(logs[id := WithChunk(logs[id], p, Detach(ChunkAt(logs[id], p), r))], rs[r := WithoutPosition(rs[r], id)])
  {
    hide Linked, Shaped, Flags;
    WiredPlaced(logs, rs, r);
    var p, cur := rs[r].positions[id], CursorsIn(rs, id);
    assert Shaped(logs[id].chunks) && Linked(logs[id], cur) && Flags(logs, rs[r]);
    DetachLinked(logs[id], cur, r);
    var c := Detach(ChunkAt(logs[id], p), r);
    var l, v := WithChunk(logs[id], p, c), WithoutPosition(rs[r], id);
    assert Shaped(l.chunks) by { ShapedSame(logs[id].chunks, p.chunk - logs[id].base, c); }
    assert Linked(l, CursorsIn(rs[r := v], id)) by {
      assert CursorsIn(rs[r := v], id) == cur - {r};
    }
    assert Flags(logs[id := l], v) by {
      FlagsSame(logs, id, l, rs[r]);
      FlagsChanged(logs[id := l], rs[r], id, p);
    }
    assert SameElsewhere(rs[r], v, id);
    RewireOne(logs, rs, r, v, id, l);
  }

  /** Moving within a chunk and setting the need-more mark. */
  lemma MoveWired<R>(logs: seq<LogList<R>>, rs: map<R, Reader>, r: R, id: LogId, p: Position, more: bool)
    requires Wired(logs, rs) && r in rs && id in rs[r].positions && p.chunk == rs[r].positions[id].chunk && ValidPos(logs[id], p)
    requires more || Pending(logs[id], p)
    ensures var v := WithPosition(rs[r], id, p);
      Wired(logs, rs[r := v.(needed := if more then v.needed + {id} else v.needed - {id})])
  {
    hide Shaped, Linked, At, Flat;
    var cur := CursorsIn(rs, id);
    assert Shaped(logs[id].chunks) && Linked(logs[id], cur);
    var v := WithPosition(rs[r], id, p);
    v := v.(needed := if more then v.needed + {id} else v.needed - {id});
    MoveLinked(logs[id], cur, r, p);
    assert CursorsIn(rs[r := v], id) == cur[r := p];
    assert Flags(logs, rs[r]);
    assert logs[id := logs[id]] == logs;
    RewireOne(logs, rs, r, v, id, logs[id]);
  }

  // ---- The buffer changes one log ----

  /** Log `id` changes in a way that keeps every cursor into it and the unread entries behind them. */
  lemma RelistOne<R>(logs: seq<LogList<R>>, rs: map<R, Reader>, id: LogId, l: LogList<R>)
    requires Wired(logs, rs) && Shaped(l.chunks) && Linked(l, CursorsIn(rs, id))
    requires forall r :: r in rs && id in rs[r].positions && Pending(logs[id], rs[r].positions[id]) ==> Pending(l, rs[r].positions[id])
    ensures Wired(logs[id := l], rs)
  {
    var ms := logs[id := l];
    forall b: LogId
      ensures Shaped(ms[b].chunks) && Linked(ms[b], CursorsIn(rs, b))
    {
      assert Shaped(logs[b].chunks) && Linked(logs[b], CursorsIn(rs, b));
    }
    forall r | r in rs
      ensures Flags(ms, rs[r])
    {
      assert Flags(logs, rs[r]);
      forall b | b in rs[r].positions && b !in rs[r].needed
        ensures Pending(ms[b], rs[r].positions[b])
      {
        assert Pending(logs[b], rs[r].positions[b]);
      }
    }
  }

  /** Appending keeps everything wired, adds the entry to its flat log and moves no reader. */
  lemma AppendWired<R>(logs: seq<LogList<R>>, rs: map<R, Reader>, id: LogId, l: LogList<R>, maxSize: nat, e: Entry, engine: Engine)
    requires Wired(logs, rs) && ValidSize(maxSize) && engine.Lossless()
    requires l == logs[id].(chunks := Append(logs[id].chunks, maxSize, e, engine))
    ensures Wired(logs[id := l], rs)
    ensures FlatsOf(logs[id := l]) == FlatsOf(logs)[id := FlatsOf(logs)[id] + [e]]
    ensures forall r :: r in rs ==> Placed(logs, rs[r]) && Placed(logs[id := l], rs[r]) && AtOf(logs[id := l], rs[r]) == AtOf(logs, rs[r])
  {
    hide Append, Linked, Shaped, Flags, At, ValidPos, Pending, Flat;
    var cur := CursorsIn(rs, id);
    assert Shaped(logs[id].chunks) && Linked(logs[id], cur);
    AppendFlat(logs[id].chunks, maxSize, e, engine);
    AppendLinked(logs[id], cur, maxSize, e, engine);
    forall r | r in rs && id in rs[r].positions && Pending(logs[id], rs[r].positions[id])
      ensures Pending(l, rs[r].positions[id])
    {
      assert r in cur;
      AppendPending(logs[id], maxSize, e, engine, rs[r].positions[id]);
    }
    RelistOne(logs, rs, id, l);
    forall r | r in rs
      ensures Placed(logs, rs[r]) && Placed(logs[id := l], rs[r]) && AtOf(logs[id := l], rs[r]) == AtOf(logs, rs[r])
    {
      StaysAt(logs, rs, id, l, r);
    }
  }

  lemma StaysAt<R>(logs: seq<LogList<R>>, rs: map<R, Reader>, id: LogId, l: LogList<R>, r: R)
    requires |logs| == LOG_ID_MAX && Wired(logs, rs) && Wired(logs[id := l], rs) && r in rs
    requires forall q :: q in CursorsIn(rs, id) ==>
      var p := CursorsIn(rs, id)[q]; ValidPos(logs[id], p) && ValidPos(l, p) && At(l, p) == At(logs[id], p)
    ensures Placed(logs, rs[r]) && Placed(logs[id := l], rs[r]) && AtOf(logs[id := l], rs[r]) == AtOf(logs, rs[r])
  {
    hide Wired, At, ValidPos;
    WiredPlaced(logs, rs, r);
    WiredPlaced(logs[id := l], rs, r);
    assert id in rs[r].positions ==> r in CursorsIn(rs, id);
  }

  lemma AppendPending<R>(l: LogList<R>, maxSize: nat, e: Entry, engine: Engine, p: Position)
    requires Pending(l, p) && ValidPos(l.(chunks := Append(l.chunks, maxSize, e, engine)), p)
    ensures Pending(l.(chunks := Append(l.chunks, maxSize, e, engine)), p)
  {
    AppendReaders(l.chunks, maxSize, e, engine);
    hide Append;
    var m := l.(chunks := Append(l.chunks, maxSize, e, engine));
    var a, b := ChunkAt(l, p).entries, ChunkAt(m, p).entries;
    assert b == a + b[|a|..];
    SizeConcat(a, b[|a|..]);
  }

  lemma PopPending<R>(l: LogList<R>, m: LogList<R>, p: Position)
    requires l.chunks != [] && m == LogList(l.base + 1, l.chunks[1..]) && Pending(l, p) && ValidPos(m, p)
    ensures Pending(m, p)
  {
  }

  /** Erasing a front chunk nobody is attached to keeps everything wired and shortens the flat log. */
  lemma PopWired<R>(logs: seq<LogList<R>>, rs: map<R, Reader>, id: LogId, l: LogList<R>)
    requires Wired(logs, rs) && logs[id].chunks != [] && logs[id].chunks[0].readers == []
    requires l == LogList(logs[id].base + 1, logs[id].chunks[1..])
    ensures Wired(logs[id := l], rs)
    ensures var n := |logs[id].chunks[0].entries|;
      n <= |FlatsOf(logs)[id]| && FlatsOf(logs[id := l]) == FlatsOf(logs)[id := FlatsOf(logs)[id][n..]]
  {
    hide Linked, Shaped, Flags, At, ValidPos;
    var cur := CursorsIn(rs, id);
    assert Shaped(logs[id].chunks) && Linked(logs[id], cur);
    PopLinked(logs[id], cur);
    PopShaped(logs[id].chunks);
    forall r | r in rs && id in rs[r].positions && Pending(logs[id], rs[r].positions[id])
      ensures Pending(l, rs[r].positions[id])
    {
      assert r in cur;
      PopPending(logs[id], l, rs[r].positions[id]);
    }
    RelistOne(logs, rs, id, l);
    assert Flat(logs[id].chunks)[|logs[id].chunks[0].entries|..] == Flat(l.chunks);
  }

  /** ... and every cursor into that log counts that many entries less. */
  lemma PopShifts<R>(logs: seq<LogList<R>>, rs: map<R, Reader>, id: LogId, l: LogList<R>, r: R)
    requires Wired(logs, rs) && logs[id].chunks != [] && logs[id].chunks[0].readers == []
    requires l == LogList(logs[id].base + 1, logs[id].chunks[1..]) && Wired(logs[id := l], rs) && r in rs
    ensures Placed(logs, rs[r]) && Placed(logs[id := l], rs[r])
    ensures ShiftedAt(AtOf(logs, rs[r]), AtOf(logs[id := l], rs[r]), id, |logs[id].chunks[0].entries|)
  {
    hide Linked, Shaped, Flags;
    var cur := CursorsIn(rs, id);
    assert Linked(logs[id], cur);
    PopLinked(logs[id], cur);
    WiredPlaced(logs, rs, r);
    WiredPlaced(logs[id := l], rs, r);
    assert id in rs[r].positions ==> r in cur;
  }

  /** The index into log `id`, if there is one, drops by n; the others stay. */
  predicate ShiftedAt(a: map<LogId, nat>, b: map<LogId, nat>, id: LogId, n: nat)
  {
    && a.Keys == b.Keys
    && (forall k :: k in a && k != id ==> b[k] == a[k])
    && (id in a ==> b[id] + n == a[id])
  }

  lemma PopShaped<R>(cs: seq<Chunk<R>>)
    requires Shaped(cs) && cs != []
    ensures Shaped(cs[1..])
  {
    assert forall j :: 0 <= j < |cs| ==> HighestOk(cs[j]);
    assert forall j :: 0 <= j < |cs[1..]| ==> cs[1..][j] == cs[j + 1];
  }

  /** A log nobody has a cursor into may be replaced. */
  lemma ReplaceWired<R>(logs: seq<LogList<R>>, rs: map<R, Reader>, id: LogId, l: LogList<R>)
    requires Wired(logs, rs) && Shaped(l.chunks)
    requires forall r :: r in rs ==> id !in rs[r].positions
    requires forall j :: 0 <= j < |l.chunks| ==> l.chunks[j].readers == [] && l.chunks[j].refCount == 0
    ensures Wired(logs[id := l], rs)
  {
    assert CursorsIn(rs, id) == map[];
    RelistOne(logs, rs, id, l);
  }

  // ---- Readers come and go ----

  lemma NoCursorFlags<R>(logs: seq<LogList<R>>, mask: set<LogId>)
    requires |logs| == LOG_ID_MAX
    ensures Flags(logs, Reader(mask, map[], mask))
  {
  }

  lemma AddWired<R>(logs: seq<LogList<R>>, rs: map<R, Reader>, r: R, mask: set<LogId>)
    requires Wired(logs, rs) && r !in rs
    ensures Wired(logs, rs[r := Reader(mask, map[], mask)])
  {
    hide Linked, Shaped, Flags;
    var ws := rs[r := Reader(mask, map[], mask)];
    NoCursorFlags(logs, mask);
    forall id: LogId
      ensures Linked(logs[id], CursorsIn(ws, id))
    {
      assert CursorsIn(ws, id) == CursorsIn(rs, id);
      assert Linked(logs[id], CursorsIn(rs, id));
    }
  }

  lemma RemoveWired<R>(logs: seq<LogList<R>>, rs: map<R, Reader>, r: R)
    requires Wired(logs, rs) && r in rs && rs[r].positions == map[]
    ensures Wired(logs, rs - {r})
  {
    hide Linked, Shaped, Flags;
    forall id: LogId
      ensures Linked(logs[id], CursorsIn(rs - {r}, id))
    {
      assert CursorsIn(rs - {r}, id) == CursorsIn(rs, id);
      assert Linked(logs[id], CursorsIn(rs, id));
    }
  }

  // ---- Steps that only attach or detach ----

  predicate SameContents<R>(logs: seq<LogList<R>>, ms: seq<LogList<R>>)
  {
    |logs| == |ms| == LOG_ID_MAX && forall id :: 0 <= id < LOG_ID_MAX ==> SameEntries(logs[id], ms[id])
  }

  lemma SameContentsFlats<R>(logs: seq<LogList<R>>, ms: seq<LogList<R>>)
    requires SameContents(logs, ms)
    ensures FlatsOf(logs) == FlatsOf(ms)
  {
    forall id: LogId ensures Flat(logs[id].chunks) == Flat(ms[id].chunks) {
      assert SameEntries(logs[id], ms[id]);
      assert forall j :: 0 <= j < |logs[id].chunks| ==> SameChunk(logs[id].chunks[j], ms[id].chunks[j]);
      SameFlat(logs[id].chunks, ms[id].chunks);
    }
  }

  lemma SameContentsAt<R>(logs: seq<LogList<R>>, ms: seq<LogList<R>>, v: Reader)
    requires SameContents(logs, ms) && Placed(logs, v)
    ensures Placed(ms, v) && AtOf(ms, v) == AtOf(logs, v)
  {
    forall id | id in v.positions
      ensures ValidPos(ms[id], v.positions[id]) && At(ms[id], v.positions[id]) == At(logs[id], v.positions[id])
    {
      SameAt(logs[id], ms[id], v.positions[id]);
    }
  }

  lemma WithChunkSame<R>(logs: seq<LogList<R>>, id: LogId, p: Position, c: Chunk<R>)
    requires |logs| == LOG_ID_MAX && Live(logs[id], p) && SameChunk(ChunkAt(logs[id], p), c)
    ensures SameContents(logs, logs[id := WithChunk(logs[id], p, c)])
  {
  }

  /** Detaching from one chunk and attaching to the next. */
  function StepChunk<R(==)>(l: LogList<R>, p: Position, r: R): LogList<R>
    requires Live(l, p) && Live(l, Position(p.chunk + 1, 0)) && r in ChunkAt(l, p).readers && ChunkAt(l, p).refCount > 0
  {
    var q := Position(p.chunk + 1, 0);
    var m := WithChunk(l, p, Detach(ChunkAt(l, p), r));
    WithChunk(m, q, Attach(ChunkAt(m, q), r))
  }

  lemma StepChunkWired<R>(logs: seq<LogList<R>>, rs: map<R, Reader>, r: R, id: LogId)
    requires Wired(logs, rs) && r in rs && id in rs[r].positions
    requires Live(logs[id], Position(rs[r].positions[id].chunk + 1, 0))
    ensures var p := rs[r].positions[id];
      var q := Position(p.chunk + 1, 0);
      && Holds(logs[id], p, r) && ChunkAt(logs[id], p).refCount > 0
      && SameContents(logs, logs[id := StepChunk(logs[id], p, r)])
      && Wired(logs[id := StepChunk(logs[id], p, r)], rs[r := WithPosition(rs[r], id, q).(needed := rs[r].needed + {id})])
  {
    hide Wired, Shaped, Linked, Flags;
    WiredOne(logs, rs, id);
    var p := rs[r].positions[id];
    var q := Position(p.chunk + 1, 0);
    DetachWired(logs, rs, r, id);
    var m := WithChunk(logs[id], p, Detach(ChunkAt(logs[id], p), r));
    var ms, ws := logs[id := m], rs[r := WithoutPosition(rs[r], id)];
    assert id in rs[r].mask by { WiredFlags(logs, rs, r); }
    assert OnBoundary(ChunkAt(m, q).entries, 0);
    AttachWired(ms, ws, r, id, q);
    var n := WithChunk(m, q, Attach(ChunkAt(m, q), r));
    assert ms[id := n] == logs[id := StepChunk(logs[id], p, r)];
    assert (rs[r].positions - {id})[id := q] == rs[r].positions[id := q];
    assert ws[r := WithPosition(ws[r], id, q)] == rs[r := WithPosition(rs[r], id, q).(needed := rs[r].needed + {id})];
  }

  lemma WiredFlags<R>(logs: seq<LogList<R>>, rs: map<R, Reader>, r: R)
    requires Wired(logs, rs) && r in rs
    ensures Flags(logs, rs[r]) && rs[r].positions.Keys <= rs[r].mask && rs[r].needed <= rs[r].mask
    ensures rs[r].mask - rs[r].positions.Keys <= rs[r].needed
  {
  }

  /** One cursor was set while only attachments changed: the flat view changes in that one index. */
  lemma CursorSet<R>(logs: seq<LogList<R>>, ms: seq<LogList<R>>, v: Reader, w: Reader, id: LogId, p: Position)
    requires SameContents(logs, ms) && Placed(logs, v) && w.positions == v.positions[id := p] && ValidPos(ms[id], p)
    ensures Placed(ms, w) && AtOf(ms, w) == AtOf(logs, v)[id := At(ms[id], p)]
  {
    hide At, ValidPos, SameEntries;
    SameContentsAt(logs, ms, v);
    assert forall b :: b in w.positions && b != id ==> w.positions[b] == v.positions[b];
  }

  lemma SameContentsTransitive<R>(a: seq<LogList<R>>, b: seq<LogList<R>>, c: seq<LogList<R>>)
    requires SameContents(a, b) && SameContents(b, c)
    ensures SameContents(a, c)
  {
  }

  lemma FlatEmpty<R>(cs: seq<Chunk<R>>)
    requires cs == []
    ensures Flat(cs) == []
  {
  }

  lemma SameContentsReflexive<R>(a: seq<LogList<R>>)
    requires |a| == LOG_ID_MAX
    ensures SameContents(a, a)
  {
  }

  // ---- What erasing a front chunk does to one reader ----

  /** A reader that was attached to the erased chunk had read no more than that chunk of the log. */
  lemma InFrontChunk<R>(l: LogList<R>, p: Position)
    requires ValidPos(l, p) && p.chunk == l.base
    ensures At(l, p) <= |l.chunks[0].entries|
  {
    assert l.chunks[..0] == [];
  }

  /** Giving up the cursor into log `id` while that log is replaced changes no other index. */
  lemma CursorDropped<R>(logs: seq<LogList<R>>, ms: seq<LogList<R>>, v: Reader, w: Reader, id: LogId)
    requires |logs| == |ms| == LOG_ID_MAX && Placed(logs, v) && w.positions == v.positions - {id}
    requires forall b: LogId :: b != id ==> SameEntries(logs[b], ms[b])
    ensures Placed(ms, w) && AtOf(ms, w) == AtOf(logs, v) - {id}
  {
    hide At, ValidPos, SameEntries;
    forall b | b in w.positions
      ensures ValidPos(ms[b], w.positions[b]) && At(ms[b], w.positions[b]) == At(logs[b], v.positions[b])
    {
      assert w.positions[b] == v.positions[b];
      SameAt(logs[b], ms[b], v.positions[b]);
    }
  }

  /** Erasing the front chunk of log `id` keeps a reader on track, whether it was attached there or not. */
  lemma PoppedTracks(flats: seq<seq<Entry>>, next: nat, w: Writer, c: Cursors, h: History, id: LogId, n: nat,
                     at: map<LogId, nat>, attached: bool)
    requires Tracks(flats, next, w, c, h) && n <= |flats[id]|
    requires if attached then id in c.at && c.at[id] <= n && at == c.at - {id} else ShiftedAt(c.at, at, id, n)
    ensures Tracks(flats[id := flats[id][n..]], next, w, c.(at := at), h)
  {
    PruneTracks(flats, next, w, c, h, id, n, attached);
    assert Pruned(c, id, n, attached).at == at;
  }

  /** The flat view of one reader before its front chunk's readers were detached, and after the chunk was erased. */
  lemma ReaderAfterPop<R>(logs0: seq<LogList<R>>, logs1: seq<LogList<R>>, logs2: seq<LogList<R>>,
                          rs0: map<R, Reader>, rs1: map<R, Reader>, r: R, id: LogId)
    requires Wired(logs0, rs0) && Wired(logs1, rs1) && Wired(logs2, rs1) && SameContents(logs0, logs1)
    requires logs1[id].chunks != [] && logs1[id].chunks[0].readers == []
    requires logs2 == logs1[id := LogList(logs1[id].base + 1, logs1[id].chunks[1..])]
    requires r in rs0 && r in rs1 && |logs0[id].chunks| > 0
    requires if r in logs0[id].chunks[0].readers then rs1[r].positions == rs0[r].positions - {id}
             else rs1[r].positions == rs0[r].positions
    ensures Placed(logs0, rs0[r]) && Placed(logs2, rs1[r])
    ensures var at0, at2, n := AtOf(logs0, rs0[r]), AtOf(logs2, rs1[r]), |logs0[id].chunks[0].entries|;
      if r in logs0[id].chunks[0].readers then id in at0 && at0[id] <= n && at2 == at0 - {id} else ShiftedAt(at0, at2, id, n)
  {
    hide Wired, Linked, Shaped, Flags, Flat, At, ValidPos;
    WiredPlaced(logs0, rs0, r);
    if r in logs0[id].chunks[0].readers {
      WiredOne(logs0, rs0, id);
      LinkedReader(logs0[id], CursorsIn(rs0, id), 0, r);
      InFrontChunk(logs0[id], rs0[r].positions[id]);
      CursorDropped(logs0, logs2, rs0[r], rs1[r], id);
    } else {
      SameContentsAt(logs0, logs1, rs0[r]);
      PopShifts(logs1, rs1, id, logs2[id], r);
      AtOfPositions(logs1, rs0[r], rs1[r]);
    }
  }

  lemma AtOfPositions<R>(logs: seq<LogList<R>>, v: Reader, w: Reader)
    requires |logs| == LOG_ID_MAX && Placed(logs, v) && v.positions == w.positions
    ensures Placed(logs, w) && AtOf(logs, w) == AtOf(logs, v)
  {
  }
}
