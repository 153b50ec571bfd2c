/**
 SimpleLogBuffer: one list shared by all logs, a cached iterator to the oldest element of each, and
 pruning that stops at the slowest reader. Each method is one lock-protected step; FlushTo is cut where
 the lock is dropped to write an element out in place.
 */
module SimpleBuffer {
  import opened Bytes
  import opened EntryLayout
  import opened FlatReader
  import opened ListElements
  import S = LogStats

  const ULONG_MAX := 0xFFFF_FFFF_FFFF_FFFF

  /** Where the element with this number is, or the end of the list. */
  function IndexOf(logs: seq<LogElement>, s: nat): (k: nat)
    ensures k <= |logs| && (k < |logs| ==> logs[k].sequence == s)
    ensures forall j :: 0 <= j < k ==> logs[j].sequence != s
  {
    if logs == [] || logs[0].sequence == s then 0 else 1 + IndexOf(logs[1..], s)
  }

  /** Where the first element of log `id` is, or the end of the list: what a scan from the front finds. */
  function FirstOf(logs: seq<LogElement>, id: LogId): (k: nat)
    ensures k <= |logs| && (k < |logs| ==> logs[k].logId == id) && NoneBefore(logs, k, id)
  {
    if logs == [] || logs[0].logId == id then 0 else 1 + FirstOf(logs[1..], id)
  }

  predicate NoneBefore(logs: seq<LogElement>, k: nat, id: LogId)
    requires k <= |logs|
  {
    forall j :: 0 <= j < k ==> logs[j].logId != id
  }

  lemma FirstOfIs(logs: seq<LogElement>, id: LogId, k: nat)
    requires k <= |logs| && NoneBefore(logs, k, id) && (k == |logs| || logs[k].logId == id)
    ensures FirstOf(logs, id) == k
  {
  }

  /** A cached iterator refers to a live element with nothing of its log before it. */
  predicate OldestOk(logs: seq<LogElement>, id: LogId, s: nat)
  {
    IndexOf(logs, s) < |logs| && NoneBefore(logs, IndexOf(logs, s), id)
  }

  lemma IndexIs(logs: seq<LogElement>, k: nat)
    requires Proper(logs) && k < |logs|
    ensures IndexOf(logs, logs[k].sequence) == k
  {
  }

  /** An iterator to another element survives an erasure. */
  lemma OldestElsewhere(logs: seq<LogElement>, it: nat, id: LogId, s: nat)
    requires Proper(logs) && it < |logs| && OldestOk(logs, id, s) && s != logs[it].sequence
    ensures OldestOk(RemoveAt(logs, it), id, s)
  {
    var r, k := RemoveAt(logs, it), IndexOf(logs, s);
    var m := if k < it then k else k - 1;
    assert forall j :: 0 <= j < |r| ==> r[j] == logs[if j < it then j else j + 1];
    RemoveProper(logs, it);
    assert r[m].sequence == s;
    IndexIs(r, m);
  }

  /** One to the erased element moves on to the next. */
  lemma OldestMoved(logs: seq<LogElement>, it: nat, id: LogId)
    requires Proper(logs) && it + 1 < |logs| && OldestOk(logs, id, logs[it].sequence)
    ensures OldestOk(RemoveAt(logs, it), id, logs[it + 1].sequence)
  {
    var r := RemoveAt(logs, it);
    IndexIs(logs, it);
    RemoveProper(logs, it);
    assert r[it] == logs[it + 1];
    IndexIs(r, it);
  }

  lemma {:induction false} IndexAppend(logs: seq<LogElement>, e: LogElement, s: nat)
    requires IndexOf(logs, s) < |logs|
    ensures IndexOf(logs + [e], s) == IndexOf(logs, s)
  {
    if logs[0].sequence != s {
      assert (logs + [e])[1..] == logs[1..] + [e];
      IndexAppend(logs[1..], e, s);
    }
  }

  /** Elements of log `id`, of one uid only unless the caller is root. */
  function Matches(id: LogId, uid: uint32): LogElement -> bool
  {
    (e: LogElement) => e.logId == id && (uid == 0 || e.uid == uid)
  }

  /** A row count of zero wraps around when it is counted down. */
  ghost function Rows(rows: nat): nat { if rows == 0 then ULONG_MAX + 1 else rows }

  /** How many elements of log `id` pruning this many rows removes. */
  ghost function HowMany(logs: seq<LogElement>, id: LogId, rows: Option<nat>, limit: Option<nat>): nat
  {
    var free := Free(Select(logs, Matches(id, 0)), limit);
    if rows.None? then 0 else if Rows(rows.value) <= free then Rows(rows.value) else free
  }

  /** An element that does not match, or that a reader still needs, stays. */
  lemma DropKeepsNeeded(logs: seq<LogElement>, p: LogElement -> bool, n: nat, limit: Option<nat>, e: LogElement)
    requires n <= Free(Select(logs, p), limit) && e in logs && (!p(e) || Needed(e, limit))
    ensures e in DropFirst(logs, p, n)
  {
    var r, s := DropFirst(logs, p, n), Select(logs, p);
    DropFirstKeeps(logs, p, n);
    SelectMembers(r, p);
    SelectMembers(r, Not(p));
    SelectMembers(logs, p);
    SelectMembers(logs, Not(p));
    if p(e) {
      var i :| 0 <= i < |s| && s[i] == e;
      NeededNotFree(s, limit, i);
      assert s[n..][i - n] == e;
    } else {
      assert e in Select(logs, Not(p));
    }
  }

  lemma {:induction false} NeededNotFree(s: seq<LogElement>, limit: Option<nat>, i: nat)
    requires i < |s| && Needed(s[i], limit)
    ensures Free(s, limit) <= i
  {
    if i > 0 && !Needed(s[0], limit) { NeededNotFree(s[1..], limit, i - 1); }
  }

  // ---- Pruning from the oldest on ----

  /**
   The first m elements of the original list have been dealt with: `gone` matches were erased, none of
   them needed by a reader, and what did not match is before `it`; the rest is unchanged behind it.
   */
  ghost predicate Pruning(logs0: seq<LogElement>, logs: seq<LogElement>, it: nat, m: nat, p: LogElement -> bool, limit: Option<nat>, gone: nat)
  {
    && it <= |logs| && m <= |logs0| && logs[..it] == Select(logs0[..m], Not(p)) && logs[it..] == logs0[m..]
    && gone == |Select(logs0[..m], p)|
    && forall i :: 0 <= i < gone ==> !Needed(Select(logs0[..m], p)[i], limit)
  }

  lemma PruningAt(logs0: seq<LogElement>, logs: seq<LogElement>, it: nat, m: nat, p: LogElement -> bool, limit: Option<nat>, gone: nat)
    requires Pruning(logs0, logs, it, m, p, limit, gone) && it < |logs|
    ensures m < |logs0| && logs[it] == logs0[m]
  {
    assert logs[it..][0] == logs0[m..][0];
  }

  lemma OneMore(logs0: seq<LogElement>, m: nat, p: LogElement -> bool)
    requires m < |logs0|
    ensures Select(logs0[..m + 1], p) == Select(logs0[..m], p) + if p(logs0[m]) then [logs0[m]] else []
  {
    assert logs0[..m + 1] == logs0[..m] + [logs0[m]];
    SelectConcat(logs0[..m], [logs0[m]], p);
    SelectOne(logs0[m], p);
  }

  lemma PassOver(logs0: seq<LogElement>, logs: seq<LogElement>, it: nat, m: nat, p: LogElement -> bool, limit: Option<nat>, gone: nat)
    requires Pruning(logs0, logs, it, m, p, limit, gone) && it < |logs| && !p(logs[it])
    ensures Pruning(logs0, logs, it + 1, m + 1, p, limit, gone)
  {
    hide Select;
    PruningAt(logs0, logs, it, m, p, limit, gone);
    OneMore(logs0, m, p);
    OneMore(logs0, m, Not(p));
    assert logs[..it + 1] == logs[..it] + [logs[it]] && logs[it + 1..] == logs[it..][1..] == logs0[m + 1..];
  }

  lemma TakeOut(logs0: seq<LogElement>, logs: seq<LogElement>, it: nat, m: nat, p: LogElement -> bool, limit: Option<nat>, gone: nat)
    requires Pruning(logs0, logs, it, m, p, limit, gone) && it < |logs| && p(logs[it]) && !Needed(logs[it], limit)
    ensures Pruning(logs0, RemoveAt(logs, it), it, m + 1, p, limit, gone + 1)
  {
    hide Select;
    PruningAt(logs0, logs, it, m, p, limit, gone);
    OneMore(logs0, m, p);
    OneMore(logs0, m, Not(p));
    var r := RemoveAt(logs, it);
    assert r[..it] == logs[..it] && r[it..] == logs[it..][1..] == logs0[m + 1..];
  }

  /** Nothing before the oldest element of a log matches. */
  lemma PruningStarts(logs: seq<LogElement>, p: LogElement -> bool, k: nat, id: LogId, limit: Option<nat>)
    requires k <= |logs| && NoneBefore(logs, k, id) && forall e :: p(e) ==> e.logId == id
    ensures Pruning(logs, logs, k, k, p, limit, 0)
  {
    SelectNone(logs[..k], p);
    SelectAll(logs[..k], Not(p));
  }

  lemma {:induction false} SelectAll(logs: seq<LogElement>, p: LogElement -> bool)
    requires forall i :: 0 <= i < |logs| ==> p(logs[i])
    ensures Select(logs, p) == logs
  {
    if logs != [] { SelectAll(logs[1..], p); }
  }

  lemma Enough(logs0: seq<LogElement>, logs: seq<LogElement>, it: nat, m: nat, p: LogElement -> bool, limit: Option<nat>, gone: nat)
    requires Pruning(logs0, logs, it, m, p, limit, gone)
    ensures gone <= Free(Select(logs0, p), limit) && logs == DropFirst(logs0, p, gone)
  {
    assert logs0 == logs0[..m] + logs0[m..];
    SelectConcat(logs0[..m], logs0[m..], p);
    FreePrefix(Select(logs0[..m], p), Select(logs0[m..], p), limit);
    DropFirstPrefix(logs0, p, m);
    assert logs == logs[..it] + logs[it..];
  }

  lemma Stopped(logs0: seq<LogElement>, logs: seq<LogElement>, it: nat, m: nat, p: LogElement -> bool, limit: Option<nat>, gone: nat)
    requires Pruning(logs0, logs, it, m, p, limit, gone) && it < |logs| && p(logs[it]) && Needed(logs[it], limit)
    ensures gone == Free(Select(logs0, p), limit) < |Select(logs0, p)| && logs == DropFirst(logs0, p, gone)
  {
    PruningAt(logs0, logs, it, m, p, limit, gone);
    Enough(logs0, logs, it, m, p, limit, gone);
    assert logs0 == logs0[..m] + logs0[m..];
    SelectConcat(logs0[..m], logs0[m..], p);
    FreePrefix(Select(logs0[..m], p), Select(logs0[m..], p), limit);
  }

  lemma RunOut(logs0: seq<LogElement>, logs: seq<LogElement>, it: nat, m: nat, p: LogElement -> bool, limit: Option<nat>, gone: nat)
    requires Pruning(logs0, logs, it, m, p, limit, gone) && it >= |logs|
    ensures gone == Free(Select(logs0, p), limit) == |Select(logs0, p)|
  {
    Enough(logs0, logs, it, m, p, limit, gone);
    assert logs[it..] == [] && logs0[..m] == logs0;
  }

  // ---- Where a flush starts ----

  /** The backward search of FlushTo. */
  function StartIndex(logs: seq<LogElement>, start: nat): (k: nat)
    ensures k <= |logs|
  {
    if start <= 1 then 0 else SearchBack(logs, start, |logs|)
  }

  function SearchBack(logs: seq<LogElement>, start: nat, k: nat): (r: nat)
    requires k <= |logs|
    ensures r <= k
    ensures forall j :: r <= j < k ==> logs[j].sequence >= start
    ensures r == 0 || logs[r - 1].sequence < start || (r < k && logs[r].sequence == start)
  {
    if k == 0 then 0
    else if logs[k - 1].sequence == start then k - 1
    else if logs[k - 1].sequence < start then k
    else SearchBack(logs, start, k - 1)
  }

  predicate Ascending(logs: seq<LogElement>)
  {
    forall i, j :: 0 <= i < j < |logs| ==> logs[i].sequence < logs[j].sequence
  }

  /**
   The flush sees every element from `start` on if and only if none of them comes before an older one
   in the list; a list in ascending order always qualifies.
   */
  lemma StartFindsAll(logs: seq<LogElement>, start: nat)
    requires Proper(logs) && start > 1
    ensures (forall i :: 0 <= i < |logs| && logs[i].sequence >= start ==> i >= StartIndex(logs, start)) <==>
      (forall i, j :: 0 <= i < j < |logs| && logs[i].sequence >= start ==> logs[j].sequence > start)
    ensures Ascending(logs) ==> forall i :: 0 <= i < |logs| ==> (logs[i].sequence >= start <==> i >= StartIndex(logs, start))
  {
    var k := StartIndex(logs, start);
    if forall i, j :: 0 <= i < j < |logs| && logs[i].sequence >= start ==> logs[j].sequence > start {
      assert forall i :: 0 <= i < |logs| && logs[i].sequence >= start ==> i >= k;
    }
    if forall i :: 0 <= i < |logs| && logs[i].sequence >= start ==> i >= k {
      forall i, j | 0 <= i < j < |logs| && logs[i].sequence >= start ensures logs[j].sequence > start {
        assert i >= k;
        NotAgain(logs, start, |logs|, j);
      }
    }
  }

  /** Behind the place found, every number is above `start`. */
  lemma {:induction false} NotAgain(logs: seq<LogElement>, start: nat, k: nat, j: nat)
    requires Proper(logs) && k <= |logs| && SearchBack(logs, start, k) < j < k
    ensures logs[j].sequence > start
  {
    if logs[k - 1].sequence > start && j < k - 1 { NotAgain(logs, start, k - 1, j); }
  }

  predicate AllAbove(logs: seq<LogElement>, s: nat) { forall i :: 0 <= i < |logs| ==> logs[i].sequence > s }

  lemma {:induction false} DropFirstAbove(logs: seq<LogElement>, p: LogElement -> bool, n: nat, s: nat)
    requires AllAbove(logs, s)
    ensures AllAbove(DropFirst(logs, p, n), s)
  {
    if logs != [] && n > 0 { DropFirstAbove(logs[1..], p, if p(logs[0]) then n - 1 else n, s); }
  }

  lemma {:induction false} DropFirstAscending(logs: seq<LogElement>, p: LogElement -> bool, n: nat)
    requires Ascending(logs)
    ensures Ascending(DropFirst(logs, p, n))
  {
    if logs != [] && n > 0 {
      var t := logs[1..];
      DropFirstAscending(t, p, if p(logs[0]) then n - 1 else n);
      assert AllAbove(t, logs[0].sequence);
      DropFirstAbove(t, p, n, logs[0].sequence);
    }
  }

  // ---- Readers ----

  /** A reader thread: `start` and, while it writes an element out without the lock, that element. */
  class LogReader {
    const mask: set<LogId>
    const writer: Writer
    const wrapped: bool          // it has a deadline
    var start: nat
    var writing: Option<LogElement>
    var dropChatty: bool

    constructor (start: nat, mask: set<LogId>, writer: Writer, wrapped: bool)
      ensures this.start == start && this.mask == mask && this.writer == writer && this.wrapped == wrapped
      ensures writing == None && dropChatty
    {
      this.start, this.mask, this.writer, this.wrapped := start, mask, writer, wrapped;
      writing, dropChatty := None, true;
    }

    /** What a flush of this reader sends out. */
    predicate Sends(e: LogElement, filter: LogElement -> FilterResult)
      reads this
    {
      && (writer.privileged || e.uid == writer.uid) && e.logId in mask && filter(e) == Write
      && !(dropChatty && e.dropped != 0)
    }

    /** The filter stops the flush at element i, with nothing to send from `from` up to it. */
    predicate StopsFirst(logs: seq<LogElement>, from: nat, i: nat, filter: LogElement -> FilterResult)
      requires from <= i < |logs|
      reads this
    {
      && (writer.privileged || logs[i].uid == writer.uid) && logs[i].logId in mask && filter(logs[i]) == Stop
      && forall j :: from <= j < i ==> !Sends(logs[j], filter)
    }

    /** From `from` on, element i is the first this reader sends. */
    predicate SendsFirst(logs: seq<LogElement>, from: nat, i: nat, filter: LogElement -> FilterResult)
      requires from <= i < |logs|
      reads this
    {
      Sends(logs[i], filter) && forall j :: from <= j < i ==> !Sends(logs[j], filter)
    }
  }

  /** The lowest start of any reader watching log `id`. */
  ghost predicate IsLimit(readers: seq<LogReader>, id: LogId, limit: Option<nat>)
    reads readers
  {
    && (limit.None? ==> forall r :: r in readers ==> id !in r.mask)
    && (limit.Some? ==> exists r :: r in readers && id in r.mask && r.start == limit.value)
    && (limit.Some? ==> forall r :: r in readers && id in r.mask ==> limit.value <= r.start)
  }

  /** n bytes more have come in for log `id`, and nothing else has changed. */
  predicate TotalsOnly(cs: seq<S.Counters>, ds: seq<S.Counters>, id: LogId, n: nat)
    requires |cs| == LOG_ID_MAX
  {
    ds == cs[id := cs[id].(sizesTotal := cs[id].sizesTotal + n, elementsTotal := cs[id].elementsTotal + 1)]
  }

  class SimpleLogBuffer {
    const trackTotal: bool
    var logs: seq<LogElement>
    var oldest: map<LogId, nat>
    var counters: seq<S.Counters>
    var sequence: nat
    var readers: seq<LogReader>

    /** The list, the cache and the statistics fit together. */
    ghost predicate ListOk()
      reads this
    {
      && Proper(logs) && (forall i :: 0 <= i < |logs| ==> logs[i].sequence < sequence)
      && (forall id :: id in oldest ==> OldestOk(logs, id, oldest[id]))
      && |counters| == LOG_ID_MAX && (forall id: LogId :: Counted(counters[id], logs, id, trackTotal))
    }

    /** While a reader writes an element out, that very element is in the list, watched, and the reader's start. */
    ghost predicate WindowOk(r: LogReader)
      reads this, r
    {
      r.writing.Some? ==> r.writing.value in logs && r.start == r.writing.value.sequence && r.writing.value.logId in r.mask
    }

    ghost predicate Valid()
      reads this, readers
    {
      ListOk() && forall r :: r in readers ==> WindowOk(r)
    }

    constructor (trackTotal: bool)
      ensures Valid() && logs == [] && readers == [] && sequence == 1 && this.trackTotal == trackTotal
    {
      this.trackTotal := trackTotal;
      logs, oldest, counters, sequence, readers := [], map[], seq(LOG_ID_MAX, i => S.ZERO), 1, [];
    }

    /** The cached iterator gives what a scan of the whole list would. */
    method GetOldest(id: LogId) returns (it: nat)
      requires ListOk()
      modifies this`oldest
      ensures ListOk() && it == FirstOf(logs, id)
    {
      hide Counted, Proper;
      it := if id in oldest then IndexOf(logs, oldest[id]) else 0;
      while it < |logs| && logs[it].logId != id
        invariant it <= |logs| && NoneBefore(logs, it, id)
      {
        it := it + 1;
      }
      FirstOfIs(logs, id, it);
      if it < |logs| {
        IndexIs(logs, it);
        oldest := oldest[id := logs[it].sequence];
      }
    }

    /** Takes an element out of the list; cached iterators to it move on. */
    method EraseElement(it: nat)
      requires Proper(logs) && it < |logs| && forall id :: id in oldest ==> OldestOk(logs, id, oldest[id])
      modifies this`logs, this`oldest
      ensures logs == RemoveAt(old(logs), it) && Proper(logs)
      ensures forall id :: id in oldest ==> OldestOk(logs, id, oldest[id])
    {
      hide Proper, OldestOk, RemoveAt;
      var s := logs[it].sequence;
      ghost var was, cache := logs, oldest;
      RemoveProper(logs, it);
      var next := if it + 1 < |logs| then Some(logs[it + 1].sequence) else None;
      logs := RemoveAt(logs, it);
      forall id | id in cache
        ensures cache[id] != s ==> OldestOk(logs, id, cache[id])
        ensures cache[id] == s && next.Some? ==> OldestOk(logs, id, next.value)
      {
        if cache[id] != s { OldestElsewhere(was, it, id, cache[id]); }
        else if next.Some? { OldestMoved(was, it, id); }
      }
      for i := 0 to LOG_ID_MAX
        invariant logs == RemoveAt(was, it) && oldest.Keys <= cache.Keys
        invariant forall id :: id in oldest && id >= i ==> oldest[id] == cache[id]
        invariant forall id :: id in oldest && id < i ==> OldestOk(logs, id, oldest[id])
      {
        if i in oldest && oldest[i] == s {
          oldest := if next.None? then oldest - {i} else oldest[i := next.value];
        }
      }
    }

    /** Subtract from the statistics, then erase. */
    method SubtractAndErase(it: nat)
      requires ListOk() && it < |logs|
      modifies this`logs, this`oldest, this`counters
      ensures ListOk() && logs == RemoveAt(old(logs), it)
    {
      hide OldestOk, Counted, S.Agrees;
      var e := logs[it];
      ghost var was := logs;
      CountedRemove(counters[e.logId], logs, it, trackTotal);
      counters := counters[e.logId := S.Subtract(counters[e.logId], Tally(e, trackTotal), e.logId == LOG_ID_KERNEL)];
      EraseElement(it);
      forall id: LogId ensures Counted(counters[id], logs, id, trackTotal) {
        if id != e.logId {
          RemoveSelected(was, it, OfLog(id));
          CountedOther(counters[id], was, logs, id, trackTotal);
        }
      }
    }

    /** LogInternal without the pruning that may follow it. */
    method Append(e: LogElement)
      requires Valid() && WellFormed(e) && e.sequence < sequence && IndexOf(logs, e.sequence) == |logs|
      modifies this`logs, this`counters
      ensures Valid() && logs == old(logs) + [e]
      ensures counters == old(counters)[e.logId := S.Add(old(counters)[e.logId], Tally(e, trackTotal), e.logId == LOG_ID_KERNEL)]
    {
      hide Counted, S.Add;
      ghost var was := logs;
      CountedAppend(counters[e.logId], logs, e, trackTotal);
      logs := logs + [e];
      counters := counters[e.logId := S.Add(counters[e.logId], Tally(e, trackTotal), e.logId == LOG_ID_KERNEL)];
      forall id: LogId ensures Counted(counters[id], logs, id, trackTotal) {
        if id != e.logId {
          SelectConcat(was, [e], OfLog(id));
          SelectOne(e, OfLog(id));
          CountedOther(counters[id], was, logs, id, trackTotal);
        }
      }
      forall id | id in oldest ensures OldestOk(logs, id, oldest[id]) { IndexAppend(was, e, oldest[id]); }
      forall r | r in readers ensures WindowOk(r) { assert old(WindowOk(r)); }
    }

    /** LogInternal: append, then prune as many rows as the statistics ask for, if any. */
    method LogInternal(e: LogElement, rows: Option<nat>) returns (ghost gone: nat, ghost limit: Option<nat>)
      requires Valid() && WellFormed(e) && e.sequence < sequence && IndexOf(logs, e.sequence) == |logs|
      modifies this`logs, this`oldest, this`counters
      ensures Valid() && logs == DropFirst(old(logs) + [e], Matches(e.logId, 0), gone)
      ensures (rows.Some? ==> IsLimit(readers, e.logId, limit)) && gone == HowMany(old(logs) + [e], e.logId, rows, limit)
      ensures forall r, x :: r in readers && x in old(logs) + [e] && x.logId in r.mask && r.start <= x.sequence ==> x in logs
    {
      hide ListOk, Proper, Select, Free;
      Append(e);
      ghost var before := logs;
      assert DropFirst(logs, Matches(e.logId, 0), 0) == logs;
      limit := None;
      if rows.Some? {
        var _, bound := Prune(e.logId, rows.value, 0);
        limit := bound;
      }
      gone := HowMany(before, e.logId, rows, limit);
    }

    /**
     Log: refusals, and a number taken under the lock, so the list stays in ascending order. `rows` is what
     ShouldPrune asks for.
     */
    method Log(logId: nat, realtime: nat, uid: uint32, pid: nat, tid: nat, tag: int, msg: seq<byte>, shouldLog: bool, rows: Option<nat>)
      returns (ret: int, ghost gone: nat, ghost limit: Option<nat>)
      requires Valid() && 0 < |msg| < 0x1_0000 - LIST_OVERHEAD
      modifies this`logs, this`oldest, this`counters, this`sequence
      ensures Valid() && (old(Ascending(logs)) ==> Ascending(logs))
      ensures logId >= LOG_ID_MAX ==> ret == EINVAL
      ensures logId < LOG_ID_MAX && !shouldLog ==> ret == EACCES
      ensures ret < 0 ==> logs == old(logs) && sequence == old(sequence)
      ensures logId >= LOG_ID_MAX ==> counters == old(counters)
      ensures logId < LOG_ID_MAX && !shouldLog ==> |old(counters)| == LOG_ID_MAX && TotalsOnly(old(counters), counters, logId, |msg|)
      ensures logId < LOG_ID_MAX && shouldLog ==>
        var time := if realtime % 1000 == 0 then realtime + 1 else realtime;
        var all := old(logs) + [LogElement(logId, uid, pid, tid, old(sequence), time, tag, msg, 0)];
        && ret == |msg| && sequence == old(sequence) + 1 && logs == DropFirst(all, Matches(logId, 0), gone)
        && (rows.Some? ==> IsLimit(readers, logId, limit)) && gone == HowMany(all, logId, rows, limit)
    {
      hide Counted, Proper, S.Agrees;
      gone, limit := 0, None;
      if logId >= LOG_ID_MAX {
        return EINVAL, 0, None;
      }
      if !shouldLog {
        CountMore(logId, |msg|);
        return EACCES, 0, None;
      }
      var time := if realtime % 1000 == 0 then realtime + 1 else realtime;
      var elem := LogElement(logId, uid, pid, tid, sequence, time, tag, msg, 0);
      ghost var was := logs;
      sequence := sequence + 1;
      assert ListOk();
      forall r | r in readers ensures WindowOk(r) { assert old(WindowOk(r)); }
      gone, limit := LogInternal(elem, rows);
      if Ascending(was) { DropFirstAscending(was + [elem], Matches(logId, 0), gone); }
      ret := |msg|;
    }

    /** Traffic that is not stored counts towards the totals only. */
    method CountMore(id: LogId, size: nat)
      requires Valid()
      modifies this`counters
      ensures Valid() && |old(counters)| == LOG_ID_MAX && TotalsOnly(old(counters), counters, id, size)
    {
      hide Proper, OldestOk, Select;
      assert Counted(counters[id], logs, id, trackTotal);
      counters := counters[id := S.AddTotal(counters[id], size)];
      forall r | r in readers ensures WindowOk(r) { assert old(WindowOk(r)); }
    }

    /**
     FlushTo from taking the lock to giving it up: either to write `out` to the client straight from the
     list, or because the flush is over. It visits the list from where the last window was, or from where
     the search for `start` ends.
     */
    method FlushTo(r: LogReader, filter: LogElement -> FilterResult) returns (out: Option<LogElement>, ghost stopped: bool)
      requires Valid() && r in readers
      modifies r
      ensures Valid()
      ensures var from := old(if r.writing.Some? then IndexOf(logs, r.writing.value.sequence) + 1 else StartIndex(logs, r.start));
        && (out.Some? ==> exists i :: from <= i < |logs| && out.value == logs[i] && old(r.SendsFirst(logs, from, i, filter)))
        && (out.None? && !stopped ==> forall j :: from <= j < |logs| ==> !old(r.Sends(logs[j], filter)))
        && (out.None? && !stopped ==> r.start == 1 + if from < |logs| then logs[|logs| - 1].sequence else old(r.start))
        && (stopped ==> exists i :: from <= i < |logs| && old(r.StopsFirst(logs, from, i, filter)) && r.start == logs[i].sequence + 1)
      ensures out.Some? ==> r.writing == out && r.start == out.value.sequence && (out.value.dropped == 0 ==> !r.dropChatty)
      ensures out.None? ==> r.writing.None? && r.dropChatty == old(r.dropChatty)
      ensures stopped ==> out.None?
    {
      hide ListOk, Proper, Counted;
      assert WindowOk(r);
      assert r.writing.Some? ==> exists k :: 0 <= k < |logs| && logs[k] == r.writing.value;
      var from: nat := if r.writing.Some? then IndexOf(logs, r.writing.value.sequence) + 1 else StartIndex(logs, r.start);
      var it, verdict := Scan(r, filter, from);
      if verdict == Write {
        r.writing, out := Some(logs[it]), Some(logs[it]);
        assert logs[it] in logs;
      } else {
        r.writing, out := None, None;
        r.start := r.start + 1;
      }
      stopped := verdict == Stop;
      forall q | q in readers ensures WindowOk(q) { assert q != r ==> old(WindowOk(q)); }
      assert ListOk();
    }

    /** The loop of FlushTo: `start` follows along until an element is to be written or the filter stops. */
    method Scan(r: LogReader, filter: LogElement -> FilterResult, from: nat) returns (it: nat, verdict: FilterResult)
      requires from <= |logs|
      modifies r`start, r`dropChatty
      ensures from <= it <= |logs| && (verdict == Skip <==> it == |logs|)
      ensures r.start == if it < |logs| then logs[it].sequence else if from < |logs| then logs[|logs| - 1].sequence else old(r.start)
      ensures verdict == Write ==> old(r.SendsFirst(logs, from, it, filter)) && (logs[it].dropped == 0 ==> !r.dropChatty)
      ensures verdict == Stop ==> old(r.StopsFirst(logs, from, it, filter))
      ensures verdict == Skip ==> forall j :: from <= j < |logs| ==> !old(r.Sends(logs[j], filter))
      ensures verdict != Write ==> r.dropChatty == old(r.dropChatty)
    {
      it := from;
      while it < |logs|
        invariant from <= it <= |logs| && r.dropChatty == old(r.dropChatty)
        invariant r.start == if from < it then logs[it - 1].sequence else old(r.start)
        invariant forall j :: from <= j < it ==> !old(r.Sends(logs[j], filter))
      {
        var element := logs[it];
        r.start := element.sequence;
        if (!r.writer.privileged && element.uid != r.writer.uid) || element.logId !in r.mask || filter(element) == Skip {
          it := it + 1;
          continue;
        }
        if filter(element) == Stop {
          return it, Stop;
        }
        if r.dropChatty {
          if element.dropped != 0 {
            it := it + 1;
            continue;
          }
          r.dropChatty := false;
        }
        return it, Write;
      }
      verdict := Skip;
    }

    method AddReader(r: LogReader)
      requires Valid() && r.writing.None? && r !in readers
      modifies this`readers
      ensures Valid() && readers == old(readers) + [r]
    {
      hide Counted;
      readers := readers + [r];
      forall q | q in readers ensures WindowOk(q) { assert q != r ==> old(WindowOk(q)); }
    }

    /** A reader thread ends, whatever it was doing. */
    method RemoveReader(k: nat)
      requires Valid() && k < |readers|
      modifies this`readers
      ensures Valid() && readers == old(readers)[..k] + old(readers)[k + 1..]
    {
      hide Counted;
      readers := readers[..k] + readers[k + 1..];
      forall q | q in readers ensures WindowOk(q) { assert q in old(readers) && old(WindowOk(q)); }
    }

    /** The reader of log `id` that is furthest behind; among equals one with a deadline. */
    method OldestReader(id: LogId) returns (reader: Option<LogReader>)
      ensures IsLimit(readers, id, if reader.None? then None else Some(reader.value.start))
    {
      reader := None;
      for i := 0 to |readers|
        invariant reader.None? ==> forall k :: 0 <= k < i ==> id !in readers[k].mask
        invariant reader.Some? ==> reader.value in readers && id in reader.value.mask
        invariant reader.Some? ==> forall k :: 0 <= k < i && id in readers[k].mask ==> reader.value.start <= readers[k].start
      {
        var r := readers[i];
        if id in r.mask {
          if reader.None? || reader.value.start > r.start || (reader.value.start == r.start && r.wrapped) {
            reader := Some(r);
          }
        }
      }
    }

    /**
     Erases matching elements from the oldest on, up to `pruneRows` of them and never one a reader still
     needs; fails exactly when a reader was in the way.
     */
    method Prune(id: LogId, pruneRows: nat, callerUid: uint32) returns (ok: bool, ghost limit: Option<nat>)
      requires Valid()
      modifies this`logs, this`oldest, this`counters
      ensures Valid() && IsLimit(readers, id, limit)
      ensures forall r, e :: r in readers && e in old(logs) && e.logId in r.mask && r.start <= e.sequence ==> e in logs
      ensures var p := Matches(id, callerUid);
        var free := Free(Select(old(logs), p), limit);
        && logs == DropFirst(old(logs), p, if Rows(pruneRows) <= free then Rows(pruneRows) else free)
        && (ok <==> Rows(pruneRows) <= free || free == |Select(old(logs), p)|)
    {
      hide Counted, OldestOk, Proper;
      var reader := OldestReader(id);
      var bound := if reader.None? then None else Some(reader.value.start);
      limit := bound;
      ok := PruneUpTo(id, pruneRows, callerUid, bound);
      ghost var p := Matches(id, callerUid);
      ghost var free := Free(Select(old(logs), p), limit);
      forall r, e | r in readers && e in old(logs) && e.logId in r.mask && r.start <= e.sequence
        ensures e in logs
      {
        DropKeepsNeeded(old(logs), p, if Rows(pruneRows) <= free then Rows(pruneRows) else free, limit, e);
      }
      forall r | r in readers ensures WindowOk(r) {
        assert old(WindowOk(r));
        if r.writing.Some? {
          assert r.writing.value in logs;
        }
      }
    }

    method PruneUpTo(id: LogId, pruneRows: nat, callerUid: uint32, limit: Option<nat>) returns (ok: bool)
      requires ListOk()
      modifies this`logs, this`oldest, this`counters
      ensures ListOk()
      ensures var p := Matches(id, callerUid);
        var free := Free(Select(old(logs), p), limit);
        && logs == DropFirst(old(logs), p, if Rows(pruneRows) <= free then Rows(pruneRows) else free)
        && (ok <==> Rows(pruneRows) <= free || free == |Select(old(logs), p)|)
    {
      hide ListOk, DropFirst, Free, Select, Pruning, RemoveAt;
      ghost var logs0, p := logs, Matches(id, callerUid);
      var it: nat := GetOldest(id);
      var left := if pruneRows == 0 then ULONG_MAX + 1 else pruneRows;
      PruningStarts(logs, p, it, id, limit);
      ghost var m: nat := it;   // how much of the original list has been dealt with
      ghost var gone: nat := 0;
      while it < |logs|
        invariant ListOk() && Pruning(logs0, logs, it, m, p, limit, gone)
        invariant 0 < left == Rows(pruneRows) - gone
        decreases |logs| - it
      {
        PruningAt(logs0, logs, it, m, p, limit, gone);
        var element := logs[it];
        if element.logId != id || (callerUid != 0 && element.uid != callerUid) {
          PassOver(logs0, logs, it, m, p, limit, gone);
          it, m := it + 1, m + 1;
          continue;
        }
        if Needed(element, limit) {
          Stopped(logs0, logs, it, m, p, limit, gone);
          return false;
        }
        TakeOut(logs0, logs, it, m, p, limit, gone);
        SubtractAndErase(it);
        m, gone := m + 1, gone + 1;
        left := left - 1;
        if left == 0 {
          Enough(logs0, logs, it, m, p, limit, gone);
          return true;
        }
      }
      Enough(logs0, logs, it, m, p, limit, gone);
      RunOut(logs0, logs, it, m, p, limit, gone);
      ok := true;
    }
  }
}
