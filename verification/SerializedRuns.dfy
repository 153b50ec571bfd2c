/**
 Whole runs of the serialized buffer: any sequence of lock-protected steps, with flushes of several
 readers cut into their locked parts and interleaved with everything else.
 */
module SerializedRuns {
  import opened Bytes
  import opened EntryLayout
  import opened SerializedChunk
  import opened SerializedLists
  import opened FlatReader
  import opened SerializedWiring
  import opened SerializedFlushToState
  import opened SerializedBuffer
  import S = LogStats

  /** One lock-protected step; `Flush` runs reader k up to its next unlocked window. */
  datatype Step =
    | Log(logId: nat, realtime: LogTime, uid: uint32, pid: uint32, tid: uint32, msg: seq<byte>, shouldLog: bool)
    | ClearAll(id: LogId)
    | ClearUid(id: LogId, clearedUid: uint32)
    | SetSize(id: LogId, size: nat)
    | Create(start: nat, mask: set<LogId>, writer: Writer)
    | Destroy(reader: nat)
    | Flush(reader: nat, filter: (LogId, Entry) -> FilterResult)

  /** No reader was sent an entry twice, and none is about to be. */
  ghost predicate NeverAgain(readers: set<FlushToState>)
    reads readers
  {
    forall r :: r in readers ==> !r.history.replay && r.history.again == 0
  }

  predicate NoUidClear(steps: seq<Step>) { forall i :: 0 <= i < |steps| ==> !steps[i].ClearUid? }

  ghost predicate ListedOnce<R>(c: Chunk<R>, r: R) { multiset(c.readers)[r] == 1 }

  /** What a client can rely on about one log and one reader between any two steps. */
  lemma Guarantees(b: SerializedLogBuffer, r: FlushToState, id: LogId)
    requires b.Valid() && r in b.readers
    ensures Sorted(b.EntriesOf(id))
    ensures NonDecreasing(r.history.delivered) && Repeats(r.history.delivered) == r.history.again
    ensures Increasing(r.history.delivered) <==> r.history.again == 0
    ensures r.history.mid ==> r.start in r.history.delivered
    ensures forall n :: n in r.history.late ==> n !in r.history.delivered
    ensures id in r.positions ==>
      var l, p := b.lists.logs[id], r.positions[id];
      && ValidPos(l, p) && ListedOnce(ChunkAt(l, p), r) && Accessible(ChunkAt(l, p))
      && ChunkAt(l, p).refCount == |ChunkAt(l, p).readers|
    ensures forall e :: e in b.EntriesOf(id) && id in r.mask && Visible(r.writer, e) && e.sequence < Passed(r.start, r.history) ==>
      Accounted(r.history, e.sequence)
    ensures r.history.from <= r.start
    ensures b.stats.AgreesOn(id, b.EntriesOf(id))
  {
    hide Sorted, Flat, S.Agrees, Shaped;
    assert b.OnTrack(r);
    IncreasingIff(r.history.delivered);
    assert FlatsOf(b.lists.logs)[id] == b.EntriesOf(id);
    assert Sorted(FlatsOf(b.lists.logs)[id]);
    if id in r.positions {
      HeldOnce(b.lists.logs, Views(b.readers), r, id);
    }
  }

  lemma HeldOnce(logs: seq<LogList<FlushToState>>, rs: map<FlushToState, Reader>, r: FlushToState, id: LogId)
    requires Wired(logs, rs) && r in rs && id in rs[r].positions
    ensures var l, p := logs[id], rs[r].positions[id];
      && ValidPos(l, p) && ListedOnce(ChunkAt(l, p), r) && ChunkAt(l, p).refCount == |ChunkAt(l, p).readers| > 0
  {
    hide Wired, Shaped, At, Flat;
    WiredPlaced(logs, rs, r);
    WiredOne(logs, rs, id);
    LinkedChunk(logs[id], CursorsIn(rs, id), rs[r].positions[id].chunk - logs[id].base);
  }

  // ---- What a run comes to ----

  /** A message that is let through. */
  predicate Accepted(step: Step) { step.Log? && step.logId < LOG_ID_MAX && |step.msg| > 0 && step.shouldLog }

  /** Log `id` after a step on es, if nothing were ever pruned; n is the next number. */
  function Entered(es: seq<Entry>, n: nat, step: Step, id: LogId): seq<Entry>
    requires n <= UINT64_MAX
  {
    if Accepted(step) && step.logId == id then
      es + [Entry(step.uid, step.pid, step.tid, n, step.realtime, step.msg[..if |step.msg| <= MAX_PAYLOAD then |step.msg| else MAX_PAYLOAD])]
    else if step.ClearUid? && step.id == id then Others(es, step.clearedUid)
    else es
  }

  function NextNumber(steps: seq<Step>): (n: nat)
    ensures 1 <= n <= |steps| + 1
  {
    if steps == [] then 1
    else NextNumber(steps[..|steps| - 1]) + if Accepted(steps[|steps| - 1]) then 1 else 0
  }

  /** Everything logged to log `id` and not cleared for its uid. */
  function AllEntered(steps: seq<Step>, id: LogId): seq<Entry>
    requires |steps| < UINT64_MAX
  {
    if steps == [] then []
    else Entered(AllEntered(steps[..|steps| - 1], id), NextNumber(steps[..|steps| - 1]), steps[|steps| - 1], id)
  }

  /** The step is about this log. */
  predicate Touches(step: Step, id: LogId)
  {
    match step
    case Log(b, _, _, _, _, _, _) => Accepted(step) && b == id
    case ClearAll(b) => b == id
    case ClearUid(b, _) => b == id
    case SetSize(b, _) => b == id
    case _ => false
  }

  /** The last step about this log was a message. */
  predicate JustEntered(steps: seq<Step>, id: LogId)
  {
    steps != [] && var last := steps[|steps| - 1]; if Touches(last, id) then Accepted(last) else JustEntered(steps[..|steps| - 1], id)
  }

  /** The last entry is the last message let through to log `id`, as far as it fits a payload; nothing took entries of the log away since. */
  predicate LastIs(steps: seq<Step>, id: LogId, es: seq<Entry>)
  {
    es != [] && IsSomeLast(steps, id, es[|es| - 1])
  }

  predicate IsSomeLast(steps: seq<Step>, id: LogId, e: Entry) { exists k :: 0 <= k < |steps| && IsLast(steps, id, k, e) }

  predicate IsLast(steps: seq<Step>, id: LogId, k: nat, e: Entry)
    requires k < |steps|
  {
    var s := steps[k];
    && Accepted(s) && s.logId == id && (forall j :: k < j < |steps| ==> !Touches(steps[j], id))
    && e.uid == s.uid && e.pid == s.pid && e.tid == s.tid && e.realtime == s.realtime && e.sequence == NextNumber(steps[..k])
    && if |s.msg| <= MAX_PAYLOAD then e.msg == s.msg else |e.msg| == MAX_PAYLOAD && e.msg <= s.msg
  }

  lemma {:induction false} LastEntered(steps: seq<Step>, id: LogId, es: seq<Entry>)
    requires |steps| < UINT64_MAX && JustEntered(steps, id) && es != [] && Suffix(es, AllEntered(steps, id))
    ensures LastIs(steps, id, es)
  {
    var n := |steps| - 1;
    var init, e := steps[..n], es[|es| - 1];
    assert e == AllEntered(steps, id)[|AllEntered(steps, id)| - 1];
    if Touches(steps[n], id) {
      assert IsLast(steps, id, n, e);
    } else {
      LastEntered(init, id, es);
      var k :| 0 <= k < n && IsLast(init, id, k, e);
      assert init[..k] == steps[..k];
      forall j | k < j < |steps| ensures !Touches(steps[j], id) { if j < n { assert init[j] == steps[j]; } }
      assert IsLast(steps, id, k, e);
    }
  }

  predicate Suffix(a: seq<Entry>, b: seq<Entry>) { |a| <= |b| && a == b[|b| - |a|..] }

  /** A step on the newest entries gives the newest entries. */
  lemma EnteredSuffix(a: seq<Entry>, b: seq<Entry>, n: nat, step: Step, id: LogId)
    requires n <= UINT64_MAX && Suffix(a, b)
    ensures Suffix(Entered(a, n, step, id), Entered(b, n, step, id))
  {
    if step.ClearUid? {
      var front := b[..|b| - |a|];
      assert b == front + a;
      OthersConcat(front, a, step.clearedUid);
    }
  }

  lemma SuffixTransitive(a: seq<Entry>, b: seq<Entry>, c: seq<Entry>)
    requires Suffix(a, b) && Suffix(b, c)
    ensures Suffix(a, c)
  {
  }

  /** A step took the logs from fs to gs: each loses at most its oldest entries, never the one just logged, only those of its uid to a uid clear, and nothing if the step is not about it. */
  ghost predicate StepsTo(fs: seq<seq<Entry>>, n: nat, step: Step, gs: seq<seq<Entry>>)
    requires n <= UINT64_MAX
  {
    && |fs| == |gs| == LOG_ID_MAX
    && forall id: LogId ::
      && Suffix(gs[id], Entered(fs[id], n, step, id)) && (!Touches(step, id) ==> gs[id] == fs[id])
      && (Accepted(step) && step.logId == id ==> gs[id] != []) && (step.ClearUid? ==> gs[id] == Entered(fs[id], n, step, id))
  }

  /** Each log holds the newest of what was logged to it and not cleared, at least the last message if that came last. */
  ghost predicate Newest(steps: seq<Step>, fs: seq<seq<Entry>>)
    requires |steps| < UINT64_MAX
  {
    |fs| == LOG_ID_MAX && forall id: LogId :: Suffix(fs[id], AllEntered(steps, id)) && (JustEntered(steps, id) ==> fs[id] != [])
  }

  lemma NewestNext(steps: seq<Step>, fs: seq<seq<Entry>>, step: Step, gs: seq<seq<Entry>>)
    requires |steps| + 1 < UINT64_MAX && Newest(steps, fs) && StepsTo(fs, NextNumber(steps), step, gs)
    ensures Newest(steps + [step], gs)
  {
    hide Suffix, Entered;
    assert (steps + [step])[..|steps|] == steps;
    forall id: LogId ensures Suffix(gs[id], AllEntered(steps + [step], id)) {
      EnteredSuffix(fs[id], AllEntered(steps, id), NextNumber(steps), step, id);
      SuffixTransitive(gs[id], Entered(fs[id], NextNumber(steps), step, id), AllEntered(steps + [step], id));
    }
  }

  lemma NoneTouched(fs: seq<seq<Entry>>, n: nat, step: Step)
    requires n <= UINT64_MAX && |fs| == LOG_ID_MAX && forall id: LogId :: !Touches(step, id)
    ensures StepsTo(fs, n, step, fs)
  {
    assert Accepted(step) ==> Touches(step, step.logId);
    assert step.ClearUid? ==> Touches(step, step.id);
  }

  datatype Client = Client(start: nat, mask: set<LogId>, writer: Writer)

  /** The readers that have come and not gone. */
  function Clients(steps: seq<Step>): seq<Client>
  {
    if steps == [] then [] else Served(Clients(steps[..|steps| - 1]), steps[|steps| - 1])
  }

  function Served(cs: seq<Client>, step: Step): seq<Client>
  {
    match step
    case Create(start, mask, writer) => cs + [Client(start, mask, writer)]
    case Destroy(k) => if k < |cs| then cs[..k] + cs[k + 1..] else cs
    case _ => cs
  }

  ghost function ClientOf(r: FlushToState): Client
    reads r
  {
    Client(r.history.from, r.mask, r.writer)
  }

  /** The handles are those of all readers, one each, as these clients asked for them. */
  ghost predicate Serve(b: SerializedLogBuffer, handles: seq<FlushToState>, cs: seq<Client>)
    reads b, handles
  {
    Handled(b.readers, handles, cs)
  }

  ghost predicate Handled(readers: set<FlushToState>, handles: seq<FlushToState>, cs: seq<Client>)
    reads handles
  {
    && |handles| == |cs| && (forall i :: 0 <= i < |cs| ==> ClientOf(handles[i]) == cs[i])
    && (forall i, j :: 0 <= i < j < |handles| ==> handles[i] != handles[j])
    && (forall r :: r in readers ==> r in handles) && (forall r :: r in handles ==> r in readers)
  }

  /**
   Every run from an empty buffer keeps the buffer valid, and with it everything in `Guarantees`. The numbers
   given out and the readers there are those the steps ask for. Each log holds the newest of what was logged to
   it and not cleared, at least the last message. Deliveries increase strictly if and only if no flush found
   the entry being written ahead again and let it through (`Perform` says when that counts); without uid
   clears it never happens.
   */
  method Run(engine: Engine, stats: LogStatistics, configured: seq<nat>, steps: seq<Step>)
    returns (b: SerializedLogBuffer, handles: seq<FlushToState>)
    requires engine.Lossless() && |configured| == LOG_ID_MAX && stats.counters == seq(LOG_ID_MAX, i => S.ZERO)
    requires |steps| + 1 < UINT64_MAX
    requires forall i :: 0 <= i < |steps| && steps[i].Log? ==> |steps[i].msg| < 0x1_0000
    modifies stats
    ensures b.Valid() && |b.lists.logs| == LOG_ID_MAX
    ensures b.sequence == NextNumber(steps) && Serve(b, handles, Clients(steps))
    ensures forall id: LogId :: Suffix(b.EntriesOf(id), AllEntered(steps, id))
    ensures forall id: LogId :: JustEntered(steps, id) ==> LastIs(steps, id, b.EntriesOf(id))
    ensures forall r :: r in b.readers ==> NonDecreasing(r.history.delivered)
    ensures forall r :: r in b.readers ==> (Increasing(r.history.delivered) <==> r.history.again == 0)
    ensures NoUidClear(steps) ==> forall r :: r in b.readers ==> r.history.again == 0
  {
    hide b.Valid, S.Agrees, FlatsOf, Tracks, Ordered, Wired, NonDecreasing, Increasing, Consistent, WritesAgain, Follows, Handled, Served, Newest, StepsTo, LastIs, Limited;
    b := new SerializedLogBuffer(engine, stats, configured);
    ListsThere(b);
    handles := [];
    NobodyYet(b);
    for k := 0 to |steps|
      invariant b.Valid() && fresh(b) && fresh(b.lists) && fresh(b.readers) && b.stats == stats && |b.lists.logs| == LOG_ID_MAX
      invariant b.sequence == NextNumber(steps[..k]) <= 1 + k && Serve(b, handles, Clients(steps[..k]))
      invariant Newest(steps[..k], FlatsOf(b.lists.logs))
      invariant NoUidClear(steps[..k]) ==> NeverAgain(b.readers)
    {
      ghost var before, fs := steps[..k], FlatsOf(b.lists.logs);
      assert steps[..k + 1] == before + [steps[k]] && steps[..k + 1][..k] == before;
      if NeverAgain(b.readers) { NothingToRepeat(b, handles, steps[k]); }
      handles := Perform(b, handles, Clients(before), steps[k]);
      NewestNext(before, fs, steps[k], FlatsOf(b.lists.logs));
    }
    assert steps[..|steps|] == steps;
    NewestAt(b, steps);
    forall id: LogId | JustEntered(steps, id) ensures LastIs(steps, id, b.EntriesOf(id)) { LastEntered(steps, id, b.EntriesOf(id)); }
    AllDelivered(b);
  }

  lemma NewestAt(b: SerializedLogBuffer, steps: seq<Step>)
    requires |b.lists.logs| == LOG_ID_MAX && |steps| < UINT64_MAX && Newest(steps, FlatsOf(b.lists.logs))
    ensures forall id: LogId :: Suffix(b.EntriesOf(id), AllEntered(steps, id)) && (JustEntered(steps, id) ==> b.EntriesOf(id) != [])
  {
    forall id: LogId ensures b.EntriesOf(id) == FlatsOf(b.lists.logs)[id] { }
  }

  lemma NothingToRepeat(b: SerializedLogBuffer, handles: seq<FlushToState>, step: Step)
    requires |b.lists.logs| == LOG_ID_MAX && NeverAgain(b.readers)
    ensures forall r :: r in b.readers ==> !WritesAgain(b, handles, step, r)
  {
  }

  lemma NobodyYet(b: SerializedLogBuffer)
    requires b.readers == {} && |b.lists.logs| == LOG_ID_MAX && forall id: LogId :: b.EntriesOf(id) == []
    ensures NeverAgain(b.readers) && Serve(b, [], []) && Newest([], FlatsOf(b.lists.logs))
  {
    forall id: LogId ensures FlatsOf(b.lists.logs)[id] == b.EntriesOf(id) { }
  }

  lemma AllDelivered(b: SerializedLogBuffer)
    requires b.Valid()
    ensures forall r :: r in b.readers ==> NonDecreasing(r.history.delivered)
    ensures forall r :: r in b.readers ==> (Increasing(r.history.delivered) <==> r.history.again == 0)
    ensures NeverAgain(b.readers) ==> forall r :: r in b.readers ==> r.history.again == 0
  {
    forall r | r in b.readers
      ensures NonDecreasing(r.history.delivered) && (Increasing(r.history.delivered) <==> r.history.again == 0)
    {
      Guarantees(b, r, 0);
    }
  }

  /** This step flushes reader r, which is sent the entry it was writing once more. */
  ghost predicate WritesAgain(b: SerializedLogBuffer, handles: seq<FlushToState>, step: Step, r: FlushToState)
    requires |b.lists.logs| == LOG_ID_MAX
    reads b, b.lists, r
  {
    step.Flush? && step.reader < |handles| && handles[step.reader] == r && b.SendsAgain(r, step.filter)
  }

  /** A step took a reader's history from h to g; did it write an entry once more, and may it have brought one back? */
  ghost predicate Moved(h: History, g: History, next: nat, again: bool, cleared: bool)
  {
    Follows(h, g, next) && g.again == h.again + (if again then 1 else 0) && (g.replay ==> h.replay || cleared)
  }

  /**
   What the limits have come to: a clear of a log empties it (its size cannot reach 2^64 bytes); a valid new
   limit is met at once; nothing else changes a limit, and a refused one changes nothing.
   */
  ghost predicate Limited(step: Step, sizes0: seq<nat>, logs0: seq<LogList<FlushToState>>, sizes: seq<nat>, logs: seq<LogList<FlushToState>>, engine: Engine)
  {
    && |logs0| == |logs| == |sizes0| == |sizes| == LOG_ID_MAX
    && (step.ClearAll? && SizeUsed(logs0[step.id].chunks) < UINT64_MAX ==> logs[step.id].chunks == [])
    && if step.SetSize? && MIN_BUFFER <= step.size <= MAX_BUFFER
       then sizes == sizes0[step.id := step.size] && UsedBytes(logs[step.id].chunks, engine) <= step.size
       else sizes == sizes0 && (step.SetSize? ==> logs == logs0)
  }

  /** What a flush did: end, further on, or deliver the entry the reader is now at. */
  ghost predicate Flushed(start: nat, h: History, now: nat, g: History)
  {
    if g.mid then g.delivered == h.delivered + [now] else now > start && g.delivered == h.delivered
  }

  /**
   One step. An entry is written a second time exactly when a reader's flush finds it ahead again and its
   filter lets it through; that takes a uid clear of the entry's log in the window which leaves the entry.
   Each log loses at most its oldest entries, never the one just logged.
   */
  method Perform(b: SerializedLogBuffer, handles: seq<FlushToState>, ghost cs: seq<Client>, step: Step) returns (now: seq<FlushToState>)
    requires b.Valid() && b.sequence < UINT64_MAX && Serve(b, handles, cs) && |b.lists.logs| == LOG_ID_MAX
    requires step.Log? ==> |step.msg| < 0x1_0000
    modifies b, b.lists, b.stats, b.readers
    ensures b.Valid() && |b.lists.logs| == LOG_ID_MAX
    ensures b.sequence == old(b.sequence) + if Accepted(step) then 1 else 0
    ensures Serve(b, now, Served(cs, step))
    ensures StepsTo(old(FlatsOf(b.lists.logs)), old(b.sequence), step, FlatsOf(b.lists.logs))
    ensures Limited(step, old(b.maxSize), old(b.lists.logs), b.maxSize, b.lists.logs, b.engine)
    ensures forall r :: r in b.readers ==> r in old(b.readers) || (fresh(r) && !r.history.replay && r.history.again == 0)
    ensures forall r :: r in b.readers && r in old(b.readers) ==>
      Moved(old(r.history), r.history, old(b.sequence), old(WritesAgain(b, handles, step, r)), step.ClearUid?)
    ensures step.Flush? && step.reader < |handles| ==>
      var r := handles[step.reader]; Flushed(old(r.start), old(r.history), r.start, r.history)
  {
    hide b.Valid, b.Sound, b.OnTrack, SentAgain, Moved, FlatsOf, StepsTo, Flushed, Handled, UsedBytes;
    now := handles;
    Unmoved(b.sequence);
    ListsThere(b);
    HandlesThere(b, handles, cs);
    match step {
      case Log(_, _, _, _, _, _, _) => PerformLog(b, handles, cs, step);
      case ClearUid(_, _) => PerformClear(b, handles, cs, step);
      case Flush(k, filter) =>
        if k < |handles| {
          PerformFlush(b, handles, cs, k, filter);
        }
        NoneTouched(FlatsOf(b.lists.logs), b.sequence, step);
      case ClearAll(_) => PerformTrim(b, handles, cs, step);
      case SetSize(_, _) => PerformTrim(b, handles, cs, step);
      case Create(_, _, _) =>
        now := PerformCreate(b, handles, cs, step);
        NoneTouched(FlatsOf(b.lists.logs), b.sequence, step);
      case Destroy(_) =>
        now := PerformDestroy(b, handles, cs, step);
        NoneTouched(FlatsOf(b.lists.logs), b.sequence, step);
    }
  }

  lemma Unmoved(next: nat)
    ensures forall h: History :: Moved(h, h, next, false, false)
  {
  }

  lemma FlatSuffix(cs: seq<Chunk<FlushToState>>, n: nat)
    requires n <= |cs|
    ensures Suffix(Flat(cs[n..]), Flat(cs))
  {
    hide Flat;
    assert cs == cs[..n] + cs[n..];
    FlatConcat(cs[..n], cs[n..]);
  }

  /** Clearing or resizing a log. */
  method PerformTrim(b: SerializedLogBuffer, handles: seq<FlushToState>, ghost cs: seq<Client>, step: Step)
    requires b.Valid() && b.sequence <= UINT64_MAX && Serve(b, handles, cs) && |b.lists.logs| == LOG_ID_MAX && (step.ClearAll? || step.SetSize?)
    modifies b`maxSize, b.lists, b.stats, b.readers`positions, b.readers`needed
    ensures b.Valid() && |b.lists.logs| == LOG_ID_MAX && Serve(b, handles, cs)
    ensures Limited(step, old(b.maxSize), old(b.lists.logs), b.maxSize, b.lists.logs, b.engine)
    ensures StepsTo(old(FlatsOf(b.lists.logs)), b.sequence, step, FlatsOf(b.lists.logs))
  {
    hide b.Valid, b.Sound, b.OnTrack, SameContents, FlatsOf, StepsTo, PrunedTo;
    ListsThere(b);
    ghost var logs, l, n := b.lists.logs, b.lists.logs[step.id], 0;
    assert l.chunks[0..] == l.chunks && logs[step.id := LogList(l.base + 0, l.chunks[0..])] == logs;
    if step.ClearAll? {
      n := b.ClearAll(step.id);
    } else {
      ghost var ok, m := b.SetSize(step.id, step.size);
      n := if ok then m else 0;
    }
    ListsThere(b);
    FrontGone(logs, b.lists.logs, n, step.id, b.sequence, step);
  }

  /** A reader comes. */
  method PerformCreate(b: SerializedLogBuffer, handles: seq<FlushToState>, ghost cs: seq<Client>, step: Step) returns (now: seq<FlushToState>)
    requires b.Valid() && Serve(b, handles, cs) && |b.lists.logs| == LOG_ID_MAX && step.Create?
    modifies b`readers
    ensures b.Valid() && |b.lists.logs| == LOG_ID_MAX && Serve(b, now, Served(cs, step))
    ensures forall r :: r in b.readers ==> r in old(b.readers) || (fresh(r) && !r.history.replay && r.history.again == 0)
  {
    hide b.Valid;
    var r := b.CreateFlushToState(step.start, step.mask, step.writer);
    now := handles + [r];
  }

  /** A reader goes, if there is one. */
  method PerformDestroy(b: SerializedLogBuffer, handles: seq<FlushToState>, ghost cs: seq<Client>, step: Step) returns (now: seq<FlushToState>)
    requires b.Valid() && Serve(b, handles, cs) && |b.lists.logs| == LOG_ID_MAX && step.Destroy?
    modifies b`readers, b.lists, b.readers`positions, b.readers`needed
    ensures b.Valid() && |b.lists.logs| == LOG_ID_MAX && Serve(b, now, Served(cs, step))
    ensures b.readers <= old(b.readers) && FlatsOf(b.lists.logs) == old(FlatsOf(b.lists.logs))
  {
    hide b.Valid, SameContents, FlatsOf;
    ghost var logs, readers := b.lists.logs, b.readers;
    HandlesThere(b, handles, cs);
    now := handles;
    if step.reader < |handles| {
      b.DestroyFlushToState(handles[step.reader]);
      now := handles[..step.reader] + handles[step.reader + 1..];
      SameContentsFlats(logs, b.lists.logs);
      assert Handled(readers, handles, cs);
      Gone(readers, handles, cs, step);
    }
    ListsThere(b);
  }

  lemma Gone(readers: set<FlushToState>, handles: seq<FlushToState>, cs: seq<Client>, step: Step)
    requires step.Destroy? && step.reader < |handles| && Handled(readers, handles, cs)
    ensures Handled(readers - {handles[step.reader]}, handles[..step.reader] + handles[step.reader + 1..], Served(cs, step))
  {
  }

  lemma HandlesThere(b: SerializedLogBuffer, handles: seq<FlushToState>, cs: seq<Client>)
    requires Serve(b, handles, cs)
    ensures forall i :: 0 <= i < |handles| ==> handles[i] in b.readers
  {
  }

  /** Log `id` has lost its first n chunks. */
  lemma FrontGone(logs: seq<LogList<FlushToState>>, ms: seq<LogList<FlushToState>>, n: nat, id: LogId, next: nat, step: Step)
    requires next <= UINT64_MAX && |logs| == LOG_ID_MAX && n <= |logs[id].chunks| && ms == logs[id := LogList(logs[id].base + n, logs[id].chunks[n..])]
    requires (step.ClearAll? || step.SetSize?) && step.id == id
    ensures StepsTo(FlatsOf(logs), next, step, FlatsOf(ms))
  {
    hide Flat;
    FlatSuffix(logs[id].chunks, n);
  }

  method PerformLog(b: SerializedLogBuffer, handles: seq<FlushToState>, ghost cs: seq<Client>, step: Step)
    requires b.Valid() && b.sequence < UINT64_MAX && step.Log? && |step.msg| < 0x1_0000 && |b.lists.logs| == LOG_ID_MAX && Serve(b, handles, cs)
    modifies b`sequence, b.lists, b.stats, b.readers`history, b.readers`positions, b.readers`needed
    ensures b.Valid() && |b.lists.logs| == LOG_ID_MAX && b.sequence == old(b.sequence) + if Accepted(step) then 1 else 0
    ensures forall r :: r in b.readers ==> Moved(old(r.history), r.history, old(b.sequence), false, false)
    ensures Serve(b, handles, cs) && StepsTo(old(FlatsOf(b.lists.logs)), old(b.sequence), step, FlatsOf(b.lists.logs))
  {
    hide b.Valid, b.Sound, b.OnTrack, Flat, PrunedTo, Append, StepsTo;
    ghost var logs, n := b.lists.logs, b.sequence;
    ghost var ret, pruned, _ := b.Log(step.logId, step.realtime, step.uid, step.pid, step.tid, step.msg, step.shouldLog);
    assert ret >= 0 ==> Accepted(step);
    ListsThere(b);
    if ret < 0 { NoneTouched(FlatsOf(logs), n, step); } else { Logged(logs, b.lists.logs, pruned, n, step); }
  }

  lemma Logged(logs: seq<LogList<FlushToState>>, ms: seq<LogList<FlushToState>>, pruned: nat, n: nat, step: Step)
    requires n <= UINT64_MAX && |logs| == |ms| == LOG_ID_MAX && Accepted(step) && pruned <= |Flat(logs[step.logId].chunks)|
    requires Flat(ms[step.logId].chunks) ==
      Flat(logs[step.logId].chunks)[pruned..] +
      [Entry(step.uid, step.pid, step.tid, n, step.realtime, step.msg[..if |step.msg| <= MAX_PAYLOAD then |step.msg| else MAX_PAYLOAD])]
    requires forall b: LogId :: b != step.logId ==> ms[b] == logs[b]
    ensures StepsTo(FlatsOf(logs), n, step, FlatsOf(ms))
  {
    hide Flat;
  }

  method PerformClear(b: SerializedLogBuffer, handles: seq<FlushToState>, ghost cs: seq<Client>, step: Step)
    requires b.Valid() && b.sequence <= UINT64_MAX && step.ClearUid? && |b.lists.logs| == LOG_ID_MAX && Serve(b, handles, cs)
    modifies b.lists, b.stats, b.readers`history, b.readers`positions, b.readers`needed
    ensures b.Valid() && |b.lists.logs| == LOG_ID_MAX
    ensures forall r :: r in b.readers ==> Moved(old(r.history), r.history, b.sequence, false, true)
    ensures Serve(b, handles, cs) && StepsTo(old(FlatsOf(b.lists.logs)), b.sequence, step, FlatsOf(b.lists.logs))
  {
    hide b.Valid, b.Sound, b.OnTrack, Flat, HasNumber, Others, FromUid, NobodyAttached, StepsTo;
    ghost var logs := b.lists.logs;
    ghost var _ := b.UidClear(step.id, step.clearedUid);
    ListsThere(b);
    Cleared(logs, b.lists.logs, b.sequence, step);
  }

  lemma Cleared(logs: seq<LogList<FlushToState>>, ms: seq<LogList<FlushToState>>, n: nat, step: Step)
    requires n <= UINT64_MAX && |logs| == |ms| == LOG_ID_MAX && step.ClearUid?
    requires Flat(ms[step.id].chunks) == Others(Flat(logs[step.id].chunks), step.clearedUid)
    requires forall b: LogId :: b != step.id ==> ms[b] == logs[b]
    ensures StepsTo(FlatsOf(logs), n, step, FlatsOf(ms))
  {
    hide Flat;
  }

  method PerformFlush(b: SerializedLogBuffer, handles: seq<FlushToState>, ghost cs: seq<Client>, k: nat, filter: (LogId, Entry) -> FilterResult)
    requires b.Valid() && k < |handles| && Serve(b, handles, cs) && |b.lists.logs| == LOG_ID_MAX
    modifies b.lists, handles[k]
    ensures b.Valid() && |b.lists.logs| == LOG_ID_MAX && Serve(b, handles, cs) && FlatsOf(b.lists.logs) == old(FlatsOf(b.lists.logs))
    ensures var r := handles[k];
      && Moved(old(r.history), r.history, b.sequence, old(b.SendsAgain(r, filter)), false)
      && Flushed(old(r.start), old(r.history), r.start, r.history)
  {
    hide b.Valid, b.Sound, b.OnTrack, SentAgain, NoneToSend, SameContents, FlatsOf, NextFrom, StoppedAt, b.CaughtUp;
    HandlesThere(b, handles, cs);
    var _, _ := b.FlushTo(handles[k], filter);
    ListsThere(b);
  }

  lemma ListsThere(b: SerializedLogBuffer)
    requires b.Valid()
    ensures |b.lists.logs| == |b.maxSize| == LOG_ID_MAX
  {
  }

  /** Where a flush left reader r: writing `out`, stopped by its filter right after a watched visible entry, or with everything dealt with. */
  ghost predicate LeftAt(b: SerializedLogBuffer, r: FlushToState, filter: (LogId, Entry) -> FilterResult, out: Option<LogWithId>, stopped: bool)
    requires |b.lists.logs| == LOG_ID_MAX
    reads b, b.lists, r
  {
    match out
    case Some(LogWithId(id, e)) => e in b.EntriesOf(id) && Sends(r, filter, id, e) && r.history.mid && r.start == e.sequence && e.sequence in r.history.delivered
    case None => !r.history.mid && if stopped then StoppedHere(b, r, filter) else b.CaughtUp(r)
  }

  ghost predicate StoppedHere(b: SerializedLogBuffer, r: FlushToState, filter: (LogId, Entry) -> FilterResult)
    requires |b.lists.logs| == LOG_ID_MAX
    reads b, b.lists, r
  {
    exists id: LogId, e :: e in b.EntriesOf(id) && id in r.mask && Visible(r.writer, e) && filter(id, e) == Stop && r.start == e.sequence + 1
  }

  lemma StopsHere(b: SerializedLogBuffer, r: FlushToState, filter: (LogId, Entry) -> FilterResult, lo: nat)
    requires |b.lists.logs| == LOG_ID_MAX && StoppedAt(FlatsOf(b.lists.logs), r, filter, lo, r.start)
    ensures StoppedHere(b, r, filter)
  {
    hide NoneToSend, Flat;
    var id: LogId, e :| e in FlatsOf(b.lists.logs)[id] && id in r.mask && Visible(r.writer, e) && filter(id, e) == Stop && r.start == e.sequence + 1;
    assert e in b.EntriesOf(id);
  }

  /** Log `id` still has entry n, and r is to see it. */
  ghost predicate StillThere(b: SerializedLogBuffer, r: FlushToState, id: LogId, n: nat)
    requires |b.lists.logs| == LOG_ID_MAX
    reads b, b.lists, r
  {
    id in r.mask && exists e :: e in b.EntriesOf(id) && e.sequence == n && Visible(r.writer, e)
  }

  /**
   Whether an entry reaches a reader is decided when it is logged. Whatever happens afterwards, once a flush
   has left the reader with nothing more to read, a watched, visible entry that is still there has been offered
   to its filter if and only if it was numbered at or above everything the reader was past.
   */
  method NextFlushOffers(b: SerializedLogBuffer, handles: seq<FlushToState>, ghost cs: seq<Client>, r: FlushToState, id: LogId, t: LogTime,
                         uid: uint32, msg: Payload, between: seq<Step>, filter: (LogId, Entry) -> FilterResult)
    returns (out: Option<LogWithId>, ghost stopped: bool)
    requires b.Valid() && r in b.readers && Serve(b, handles, cs)
    requires b.sequence + |between| + 1 < UINT64_MAX && forall i :: 0 <= i < |between| && between[i].Log? ==> |between[i].msg| < 0x1_0000
    modifies b, b.lists, b.stats, b.readers
    ensures b.Valid() && |b.lists.logs| == LOG_ID_MAX && b.sequence == old(b.sequence) + NextNumber(between)
    ensures r in b.readers ==> LeftAt(b, r, filter, out, stopped)
    ensures r in b.readers ==> |r.history.delivered| >= |old(r.history.delivered)| + if out.Some? then 1 else 0
    ensures r in b.readers && b.CaughtUp(r) && StillThere(b, r, id, old(b.sequence)) ==>
      (old(b.sequence) in r.history.offered <==> old(b.sequence) >= old(Passed(r.start, r.history)))
    ensures r in b.readers && old(b.sequence) < old(Passed(r.start, r.history)) ==> old(b.sequence) !in r.history.offered
  {
    hide b.Valid, b.Sound, b.OnTrack, b.Fits, NoneToSend, SameContents, Flat, Serve, Suffix, Entered, b.CaughtUp, StoppedAt, SentAgain, NextFrom;
    hide Append, PrunedTo, StoppedHere;
    ghost var n, h0 := b.sequence, r.history;
    Undecided(b, r);
    assert forall q :: q in b.readers ==> q in old(b.readers);
    LogOne(b, handles, cs, r, id, t, uid, msg);
    ghost var h1 := r.history;
    var hs := handles;
    ghost var now := cs;
    for k := 0 to |between|
      invariant b.Valid() && |b.lists.logs| == LOG_ID_MAX && b.sequence == n + NextNumber(between[..k]) <= n + 1 + k && Serve(b, hs, now)
      invariant forall q :: q in b.readers ==> q in old(b.readers) || fresh(q)
      invariant r in b.readers ==> Follows(h1, r.history, n + 1)
    {
      assert between[..k + 1][..k] == between[..k];
      hs := Perform(b, hs, now, between[k]);
      now := Served(now, between[k]);
    }
    assert between[..|between|] == between;
    out, stopped := None, false;
    if r in b.readers {
      out, stopped := Finish(b, r, filter);
      LateNotOffered(b, r);
      if b.CaughtUp(r) { Decided(b, r, id, n); }
    }
  }

  /** A message that is let through, with the readers there. */
  method LogOne(b: SerializedLogBuffer, handles: seq<FlushToState>, ghost cs: seq<Client>, r: FlushToState, id: LogId, t: LogTime, uid: uint32, msg: Payload)
    requires b.Valid() && b.sequence < UINT64_MAX && Serve(b, handles, cs) && r in b.readers
    modifies b`sequence, b.lists, b.stats, b.readers`history, b.readers`positions, b.readers`needed
    ensures b.Valid() && |b.lists.logs| == LOG_ID_MAX && b.sequence == old(b.sequence) + 1 && Serve(b, handles, cs)
    ensures r.history == NoteAppended(r.start, old(r.history), old(b.sequence))
  {
    hide b.Valid, b.Sound, b.OnTrack, NoneToSend, SameContents, Flat, PrunedTo, Append;
    var _, _, _ := b.Log(id, t, uid, 0, 0, msg, true);
    ListsThere(b);
  }

  method Finish(b: SerializedLogBuffer, r: FlushToState, filter: (LogId, Entry) -> FilterResult) returns (out: Option<LogWithId>, ghost stopped: bool)
    requires b.Valid() && r in b.readers && |b.lists.logs| == LOG_ID_MAX
    modifies b.lists, r
    ensures b.Valid() && |b.lists.logs| == LOG_ID_MAX && LeftAt(b, r, filter, out, stopped)
    ensures r.history.delivered == old(r.history.delivered) + (if out.Some? then [r.start] else [])
    ensures r.history.from == old(r.history.from) && r.history.late == old(r.history.late)
    ensures out.None? ==> Passed(r.start, r.history) == r.start > old(r.start) && (r.start == old(r.start) + 1 || r.start <= b.sequence)
  {
    hide b.Valid, b.Sound, b.OnTrack, SentAgain, NoneToSend, SameContents, Flat, NextFrom, b.CaughtUp, StoppedAt, StoppedHere;
    ghost var lo := b.NextOf(r);
    out, stopped := b.FlushTo(r, filter);
    ListsThere(b);
    if stopped { StopsHere(b, r, filter, lo); }
  }

  lemma Undecided(b: SerializedLogBuffer, r: FlushToState)
    requires b.Valid() && r in b.readers
    ensures b.sequence !in r.history.late && b.sequence !in r.history.offered && r.history.from <= r.start
  {
    assert b.OnTrack(r);
  }

  lemma Decided(b: SerializedLogBuffer, r: FlushToState, id: LogId, n: nat)
    requires b.Valid() && r in b.readers && |b.lists.logs| == LOG_ID_MAX && b.CaughtUp(r)
    requires n in r.history.late || n >= r.history.from
    ensures StillThere(b, r, id, n) ==> (n in r.history.offered <==> n !in r.history.late)
  {
    LateNotOffered(b, r);
    if e :| e in b.EntriesOf(id) && e.sequence == n && Visible(r.writer, e) {
      var i :| 0 <= i < |b.EntriesOf(id)| && b.EntriesOf(id)[i] == e;
    }
  }

  /**
   A flush that ends raises `start` even if there was nothing to read. The next entry logged, by anybody to
   any log, is offered to the reader if and only if its start was below that entry's number before the flush:
   a reader that had caught up to the last number given out skips it for good. A flush that does not end has
   delivered something.
   */
  method IdleFlushSkips(b: SerializedLogBuffer, handles: seq<FlushToState>, ghost cs: seq<Client>, r: FlushToState,
                        first: (LogId, Entry) -> FilterResult, id: LogId, t: LogTime, uid: uint32, msg: Payload, between: seq<Step>,
                        filter: (LogId, Entry) -> FilterResult)
    returns (ended: bool, out: Option<LogWithId>, ghost stopped: bool)
    requires b.Valid() && r in b.readers && Serve(b, handles, cs)
    requires b.sequence + |between| + 1 < UINT64_MAX && forall i :: 0 <= i < |between| && between[i].Log? ==> |between[i].msg| < 0x1_0000
    modifies b, b.lists, b.stats, b.readers
    ensures b.Valid() && |b.lists.logs| == LOG_ID_MAX && b.sequence == old(b.sequence) + NextNumber(between)
    ensures r in b.readers ==> LeftAt(b, r, filter, out, stopped)
    ensures r in b.readers ==> |r.history.delivered| >= |old(r.history.delivered)| + (if ended then 0 else 1) + if out.Some? then 1 else 0
    ensures ended && r in b.readers && b.CaughtUp(r) && StillThere(b, r, id, old(b.sequence)) ==>
      (old(b.sequence) in r.history.offered <==> old(r.start) < old(b.sequence))
  {
    hide b.Valid, b.Sound, b.OnTrack, b.Fits, NoneToSend, SameContents, Flat, b.CaughtUp, StillThere, LeftAt, NextNumber;
    ListsThere(b);
    var sent, _ := Finish(b, r, first);
    ended := sent.None?;
    out, stopped := NextFlushOffers(b, handles, cs, r, id, t, uid, msg, between, filter);
  }

  /** It happens to the very first entry: a reader that waits for it on an empty buffer never gets it. */
  method FirstEntrySkipped(engine: Engine, stats: LogStatistics, configured: seq<nat>, t: LogTime, msg: Payload)
    returns (b: SerializedLogBuffer, r: FlushToState)
    requires engine.Lossless() && |configured| == LOG_ID_MAX && stats.counters == seq(LOG_ID_MAX, i => S.ZERO)
    modifies stats
    ensures b.Valid() && r in b.readers && |b.EntriesOf(0)| == 1 && 0 in r.mask && Visible(r.writer, b.EntriesOf(0)[0])
    ensures r.history.offered == {} && !r.history.mid && r.start > b.EntriesOf(0)[0].sequence
  {
    hide b.Valid, b.Sound, b.OnTrack, b.Fits, NoneToSend, SameContents, Flat, SentAgain, StoppedAt, Append, PrunedTo, b.CaughtUp;
    b := Opened(engine, stats, configured);
    r := b.CreateFlushToState(1, {0}, Writer(0, true));
    FlushNothing(b, r);
    var _ := LogOnly(b, t, 0, msg);
    SameEntriesAt(b, 0);
    FlushNothing(b, r);
  }

  /** A new buffer; its log 0 is empty. */
  method Opened(engine: Engine, stats: LogStatistics, configured: seq<nat>) returns (b: SerializedLogBuffer)
    requires engine.Lossless() && |configured| == LOG_ID_MAX && stats.counters == seq(LOG_ID_MAX, i => S.ZERO)
    ensures fresh(b) && fresh(b.lists) && b.stats == stats && b.Valid() && b.readers == {} && b.sequence == 1
    ensures |b.lists.logs| == LOG_ID_MAX && b.EntriesOf(0) == []
  {
    hide b.Valid, Flat;
    b := new SerializedLogBuffer(engine, stats, configured);
    ListsThere(b);
  }

  /** The first message to log 0. */
  method LogOnly(b: SerializedLogBuffer, t: LogTime, uid: uint32, msg: Payload) returns (ghost x: Entry)
    requires b.Valid() && |b.lists.logs| == LOG_ID_MAX && b.sequence < UINT64_MAX && b.EntriesOf(0) == []
    modifies b`sequence, b.lists, b.stats, b.readers`history, b.readers`positions, b.readers`needed
    ensures b.Valid() && |b.lists.logs| == LOG_ID_MAX && b.sequence == old(b.sequence) + 1
    ensures x == Entry(uid, 0, 0, old(b.sequence), t, msg) && b.EntriesOf(0) == [x]
    ensures forall r :: r in b.readers ==> r.history == NoteAppended(r.start, old(r.history), old(b.sequence))
  {
    hide b.Valid, b.Sound, b.OnTrack, Flat, TookEntry;
    x := Entry(uid, 0, 0, b.sequence, t, msg);
    ghost var cs := b.lists.logs[0].chunks;
    ghost var ret, pruned, n := b.Log(0, t, uid, 0, 0, msg, true);
    ListsThere(b);
    assert msg[..ret] == msg;
    TheOnly(cs, b.lists.logs[0].chunks, pruned, n, x, b.maxSize[0], b.engine);
  }

  lemma TheOnly(cs: seq<Chunk<FlushToState>>, ds: seq<Chunk<FlushToState>>, pruned: nat, n: nat, e: Entry, limit: nat, engine: Engine)
    requires TookEntry(cs, ds, pruned, n, e, limit, engine) && Flat(cs) == []
    ensures Flat(ds) == [e]
  {
    hide Append, PrunedTo, Flat;
  }

  /** A flush of a reader that is past everything its only log has. */
  method FlushNothing(b: SerializedLogBuffer, r: FlushToState)
    requires b.Valid() && r in b.readers && r.mask == {0} && !r.history.mid && |b.lists.logs| == LOG_ID_MAX
    requires r.start >= b.sequence && forall i :: 0 <= i < |b.EntriesOf(0)| ==> b.EntriesOf(0)[i].sequence < r.start
    modifies b.lists, r
    ensures b.Valid() && |b.lists.logs| == LOG_ID_MAX && b.EntriesOf(0) == old(b.EntriesOf(0))
    ensures r.start == old(r.start) + 1 && !r.history.mid && r.history.offered == old(r.history.offered)
  {
    hide b.Valid, b.Sound, b.OnTrack, b.Fits, NoneToSend, SameContents, Flat, SentAgain, StoppedAt, b.CaughtUp, NextFrom;
    NotStarted(b, r);
    SameEntriesAt(b, 0);
    var out, stopped := b.FlushTo(r, (id: LogId, e: Entry) => Write);
    SameEntriesAt(b, 0);
    OfferedBelow(b, r);
  }

  lemma SameEntriesAt(b: SerializedLogBuffer, id: LogId)
    requires b.Valid()
    ensures |b.lists.logs| == LOG_ID_MAX && FlatsOf(b.lists.logs)[id] == b.EntriesOf(id)
  {
  }

  lemma OfferedBelow(b: SerializedLogBuffer, r: FlushToState)
    requires b.Valid() && r in b.readers
    ensures |b.lists.logs| == LOG_ID_MAX && forall n :: n in r.history.offered ==> n < b.sequence
  {
    assert b.OnTrack(r);
  }

  /**
   And an entry does go out twice: a reader has the only entry in its window when another uid is cleared from
   that log; the clear leaves the entry and drops the cursor behind it, and the flush goes on with the same entry.
   */
  method EntryWrittenTwice(engine: Engine, stats: LogStatistics, configured: seq<nat>, t: LogTime, msg: Payload)
    returns (b: SerializedLogBuffer, r: FlushToState)
    requires engine.Lossless() && |configured| == LOG_ID_MAX && stats.counters == seq(LOG_ID_MAX, i => S.ZERO)
    modifies stats
    ensures b.Valid() && r in b.readers && r.history.delivered == [1, 1] && r.history.again == 1
  {
    hide b.Valid, b.Sound, b.OnTrack, b.Fits, NoneToSend, SameContents, Flat, SentAgain, b.CaughtUp, StoppedAt, NextFrom;
    ghost var x;
    b, r, x := WrittenOnce(engine, stats, configured, t, msg);
    var all := (id: LogId, e: Entry) => Write;
    var _ := b.UidClear(0, 2);
    SameEntriesAt(b, 0);
    assert b.EntriesOf(0) == [x] by { OthersNone([x], 2); }
    assert [x][0].sequence == r.start;
    assert FlatsOf(b.lists.logs)[0] == [x];
    assert b.SendsAgain(r, all) by { OnlyOne(FlatsOf(b.lists.logs), r, all, x); }
    var _, _ := b.FlushTo(r, all);
  }

  /** One entry is logged, and a reader has it in its window. */
  method WrittenOnce(engine: Engine, stats: LogStatistics, configured: seq<nat>, t: LogTime, msg: Payload)
    returns (b: SerializedLogBuffer, r: FlushToState, ghost x: Entry)
    requires engine.Lossless() && |configured| == LOG_ID_MAX && stats.counters == seq(LOG_ID_MAX, i => S.ZERO)
    modifies stats
    ensures fresh(b) && fresh(b.lists) && b.stats == stats && b.Valid() && fresh(r) && b.readers == {r} && r.mask == {0} && r.writer == Writer(0, true)
    ensures |b.lists.logs| == LOG_ID_MAX && b.EntriesOf(0) == [x] && x.sequence == 1 && x.uid == 1
    ensures r.start == 1 && r.history.mid && r.history.delivered == [1] && r.history.again == 0
  {
    hide b.Valid, b.Sound, b.OnTrack, b.Fits, NoneToSend, SameContents, Flat, SentAgain, Append, PrunedTo, b.CaughtUp, StoppedAt, NextFrom;
    b := Opened(engine, stats, configured);
    x := LogOnly(b, t, 1, msg);
    r := b.CreateFlushToState(1, {0}, Writer(0, true));
    var all := (id: LogId, e: Entry) => Write;
    assert FlatsOf(b.lists.logs)[0] == [x];
    assert b.NextOf(r) == 1 by { NotStarted(b, r); }
    OnlyOne(FlatsOf(b.lists.logs), r, all, x);
    var _, _ := b.FlushTo(r, all);
    SameEntriesAt(b, 0);
  }

  lemma NotStarted(b: SerializedLogBuffer, r: FlushToState)
    requires |b.lists.logs| == LOG_ID_MAX && !r.history.mid
    ensures b.NextOf(r) == r.start
  {
  }

  /** A log with one entry that is to be sent. */
  lemma OnlyOne(flats: seq<seq<Entry>>, r: FlushToState, all: (LogId, Entry) -> FilterResult, x: Entry)
    requires |flats| == LOG_ID_MAX && flats[0] == [x] && r.mask == {0} && Visible(r.writer, x) && x.sequence < UINT64_MAX
    requires forall id: LogId, e :: all(id, e) == Write
    ensures !NoneToSend(flats, r, all, x.sequence, UINT64_MAX)
    ensures forall lo, start :: !StoppedAt(flats, r, all, lo, start)
    ensures forall h: History :: h.replay ==> SentAgain(flats, r, all, x.sequence, h)
  {
    assert flats[0][0] == x && x in flats[0] && Sends(r, all, 0, x);
  }

  lemma LateNotOffered(b: SerializedLogBuffer, r: FlushToState)
    requires b.Valid() && r in b.readers
    ensures |b.lists.logs| == LOG_ID_MAX && forall n :: n in r.history.late ==> n !in r.history.offered
  {
    assert b.OnTrack(r);
  }
}
