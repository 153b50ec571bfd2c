/**
 ChattyLogBuffer::Prune and Erase: three passes over the shared list. The first squashes the messages
 of the worst offender into chatty elements and merges those; the other two erase from the oldest on.

 Which source is the worst offender and which prune rules match is left to the caller, so everything
 proved here holds for whatever the statistics and the rules say.
 */
module ChattyPrune {
  import opened Bytes
  import opened EntryLayout
  import opened FlatReader
  import opened ListElements
  import opened SimpleBuffer
  import opened ChattyMarks
  import opened ChattySweep
  import S = LogStats

  lemma LastFewer(logs: seq<LogElement>, from: nat, it: nat, last: map<nat, nat>, id: LogId, limit: Option<nat>, fewer: map<nat, nat>)
    requires LastOk(logs, from, it, last, id, limit) && fewer.Keys <= last.Keys && forall k :: k in fewer ==> fewer[k] == last[k]
    ensures LastOk(logs, from, it, fewer, id, limit)
  {
    forall k | k in fewer ensures LastEntryOk(logs, from, it, k, fewer[k], id, limit) {
      assert LastEntryOk(logs, from, it, k, last[k], id, limit);
    }
  }

  ghost predicate AllMarksOk(logs: seq<LogElement>, marks: seq<map<int, nat>>, pidMarks: seq<map<nat, nat>>)
  {
    && |marks| == |pidMarks| == LOG_ID_MAX && (forall i :: 0 <= i < |logs| ==> Narrow(logs[i]))
    && (forall id: LogId, k :: k in marks[id] ==> MarkOk(logs, id, k, marks[id][k]))
    && (forall id: LogId, k :: k in pidMarks[id] ==> PidMarkOk(logs, id, k, pidMarks[id][k]))
  }

  function WithMark(marks: seq<map<int, nat>>, id: LogId, key: int, s: nat): seq<map<int, nat>>
    requires |marks| == LOG_ID_MAX
  {
    var now: map<int, nat> := marks[id][key := s];
    marks[id := now]
  }

  function WithPidMark(marks: seq<map<nat, nat>>, id: LogId, pid: nat, s: nat): seq<map<nat, nat>>
    requires |marks| == LOG_ID_MAX
  {
    var now: map<nat, nat> := marks[id][pid := s];
    marks[id := now]
  }

  /** No watermark refers to the element numbered s. */
  ghost predicate Unmarked(marks: seq<map<int, nat>>, pidMarks: seq<map<nat, nat>>, s: nat)
    requires |marks| == |pidMarks| == LOG_ID_MAX
  {
    && (forall id: LogId, k :: k in marks[id] ==> marks[id][k] != s)
    && (forall id: LogId, k :: k in pidMarks[id] ==> pidMarks[id][k] != s)
  }

  /** The watermarks to the element numbered s are gone, and the others are as they were. */
  ghost predicate OnlyUnmarked(m0: seq<map<int, nat>>, p0: seq<map<nat, nat>>, m1: seq<map<int, nat>>, p1: seq<map<nat, nat>>, s: nat)
  {
    && |m0| == |p0| == |m1| == |p1| == LOG_ID_MAX && Unmarked(m1, p1, s) && MarksKept(m0, p0, m1, p1, s)
    && (forall id: LogId, k :: k in m1[id] ==> k in m0[id] && m1[id][k] == m0[id][k])
    && (forall id: LogId, k :: k in p1[id] ==> k in p0[id] && p1[id][k] == p0[id][k])
  }

  lemma MarksAfterRemove(logs: seq<LogElement>, it: nat, marks: seq<map<int, nat>>, pidMarks: seq<map<nat, nat>>)
    requires Proper(logs) && it < |logs| && AllMarksOk(logs, marks, pidMarks) && Unmarked(marks, pidMarks, logs[it].sequence)
    ensures AllMarksOk(RemoveAt(logs, it), marks, pidMarks)
  {
    hide Proper, RemoveAt;
    NarrowRemoved(logs, it);
    forall id: LogId, k | k in marks[id] ensures MarkOk(RemoveAt(logs, it), id, k, marks[id][k]) {
      assert MarkOk(logs, id, k, marks[id][k]);
      IndexAfterRemove(logs, it, marks[id][k]);
    }
    forall id: LogId, k | k in pidMarks[id] ensures PidMarkOk(RemoveAt(logs, it), id, k, pidMarks[id][k]) {
      assert PidMarkOk(logs, id, k, pidMarks[id][k]);
      IndexAfterRemove(logs, it, pidMarks[id][k]);
    }
  }

  lemma NarrowRemoved(logs: seq<LogElement>, it: nat)
    requires it < |logs| && forall i :: 0 <= i < |logs| ==> Narrow(logs[i])
    ensures forall i :: 0 <= i < |RemoveAt(logs, it)| ==> Narrow(RemoveAt(logs, it)[i])
  {
  }

  lemma MarksAfterReplace(logs: seq<LogElement>, i: nat, f: LogElement, marks: seq<map<int, nat>>, pidMarks: seq<map<nat, nat>>)
    requires Proper(logs) && i < |logs| && SameSource(logs[i], f) && WellFormed(f) && AllMarksOk(logs, marks, pidMarks)
    ensures AllMarksOk(logs[i := f], marks, pidMarks)
  {
    hide Proper;
    IndexAfterReplace(logs, i, f);
    forall id: LogId, k | k in marks[id] ensures MarkOk(logs[i := f], id, k, marks[id][k]) {
      assert MarkOk(logs, id, k, marks[id][k]);
    }
    forall id: LogId, k | k in pidMarks[id] ensures PidMarkOk(logs[i := f], id, k, pidMarks[id][k]) {
      assert PidMarkOk(logs, id, k, pidMarks[id][k]);
    }
  }

  lemma MarksAfterAppend(logs: seq<LogElement>, e: LogElement, marks: seq<map<int, nat>>, pidMarks: seq<map<nat, nat>>)
    requires AllMarksOk(logs, marks, pidMarks) && Narrow(e)
    ensures AllMarksOk(logs + [e], marks, pidMarks)
  {
    forall id: LogId, k | k in marks[id] ensures MarkOk(logs + [e], id, k, marks[id][k]) {
      assert MarkOk(logs, id, k, marks[id][k]);
      IndexAppend(logs, e, marks[id][k]);
    }
    forall id: LogId, k | k in pidMarks[id] ensures PidMarkOk(logs + [e], id, k, pidMarks[id][k]) {
      assert PidMarkOk(logs, id, k, pidMarks[id][k]);
      IndexAppend(logs, e, pidMarks[id][k]);
    }
  }

  lemma OldestAfterReplace(logs: seq<LogElement>, i: nat, f: LogElement, oldest: map<LogId, nat>)
    requires Proper(logs) && i < |logs| && SameSource(logs[i], f) && WellFormed(f)
    requires forall id :: id in oldest ==> OldestOk(logs, id, oldest[id])
    ensures forall id :: id in oldest ==> OldestOk(logs[i := f], id, oldest[id])
  {
    IndexAfterReplace(logs, i, f);
    forall id | id in oldest ensures OldestOk(logs[i := f], id, oldest[id]) { assert OldestOk(logs, id, oldest[id]); }
  }

  class ChattyLogBuffer {
    const base: SimpleLogBuffer
    var lastWorst: seq<map<int, nat>>
    var lastWorstPid: seq<map<nat, nat>>

    /** The list is in order and every watermark refers to a live element of its log with its key. */
    ghost predicate Ok()
      reads this, base
      ensures Ok() ==> |lastWorst| == |lastWorstPid| == LOG_ID_MAX
    {
      base.ListOk() && AllMarksOk(base.logs, lastWorst, lastWorstPid)
    }

    ghost predicate Valid()
      reads this, base, base.readers
    {
      base.Valid() && Ok()
    }

    constructor (base: SimpleLogBuffer)
      requires base.Valid() && base.logs == []
      ensures Valid() && this.base == base
    {
      this.base := base;
      lastWorst, lastWorstPid := seq(LOG_ID_MAX, i => map[]), seq(LOG_ID_MAX, i => map[]);
    }

    /** The watermarks that refer to an element about to go are removed. */
    method Unmark(it: nat)
      requires Ok() && it < |base.logs|
      modifies this
      ensures Ok() && Unmarked(lastWorst, lastWorstPid, base.logs[it].sequence)
      ensures OnlyUnmarked(old(lastWorst), old(lastWorstPid), lastWorst, lastWorstPid, base.logs[it].sequence)
    {
      hide base.ListOk, IndexOf, Proper;
      var e := base.logs[it];
      var id, key, s := e.logId, Key(e), e.sequence;
      assert IndexOf(base.logs, s) == it by { ListProper(); IndexIs(base.logs, it); }
      if key in lastWorst[id] && lastWorst[id][key] == s {
        lastWorst := lastWorst[id := lastWorst[id] - {key}];
      }
      if e.pid in lastWorstPid[id] && lastWorstPid[id][e.pid] == s {
        lastWorstPid := lastWorstPid[id := lastWorstPid[id] - {e.pid}];
      }
    }

    lemma AllNarrow()
      requires AllMarksOk(base.logs, lastWorst, lastWorstPid)
      ensures forall i :: 0 <= i < |base.logs| ==> Narrow(base.logs[i])
    {
    }

    lemma ListProper()
      requires base.ListOk()
      ensures Proper(base.logs)
    {
    }

    /** Erase(it): counted out of the statistics. */
    method Erase(it: nat)
      requires Ok() && it < |base.logs|
      modifies this, base`logs, base`oldest, base`counters
      ensures Ok() && base.logs == RemoveAt(old(base.logs), it)
      ensures OnlyUnmarked(old(lastWorst), old(lastWorstPid), lastWorst, lastWorstPid, old(base.logs)[it].sequence)
    {
      hide base.ListOk, AllMarksOk, OnlyUnmarked;
      ListProper();
      Unmark(it);
      MarksAfterRemove(base.logs, it, lastWorst, lastWorstPid);
      base.SubtractAndErase(it);
    }

    /** last.coalesce(&element, dropped) that succeeds, then Erase(it, true): the count moves over to element f. */
    method Merge(f: nat, it: nat)
      requires Ok() && f < it < |base.logs|
      requires base.logs[f].logId == base.logs[it].logId && base.logs[f].uid == base.logs[it].uid && base.logs[f].pid == base.logs[it].pid
      requires base.logs[f].dropped > 0 && base.logs[it].dropped > 0 && base.logs[f].dropped + base.logs[it].dropped <= USHRT_MAX
      modifies this, base`logs, base`oldest, base`counters
      ensures Ok() && base.logs == Merged(old(base.logs), f, it)
      ensures OnlyUnmarked(old(lastWorst), old(lastWorstPid), lastWorst, lastWorstPid, old(base.logs)[it].sequence)
    {
      hide OnlyUnmarked, AllMarksOk, OldestOk, Counted, S.Erase, S.Agrees;
      ghost var logs0 := base.logs;
      var e := base.logs[it];
      var x := SetDropped(base.logs[f], base.logs[f].dropped + e.dropped);
      CountedMerge(base.counters[e.logId], logs0, f, it, base.trackTotal);
      IndexAfterReplace(logs0, f, x);
      MarksAfterReplace(logs0, f, x, lastWorst, lastWorstPid);
      OldestAfterReplace(logs0, f, x, base.oldest);
      Unmark(it);
      MarksAfterReplace(logs0, f, x, lastWorst, lastWorstPid);
      base.logs := base.logs[f := x];
      MarksAfterRemove(base.logs, it, lastWorst, lastWorstPid);
      base.counters := base.counters[e.logId := S.Erase(base.counters[e.logId], Tally(e, base.trackTotal))];
      base.EraseElement(it);
      forall id: LogId ensures Counted(base.counters[id], base.logs, id, base.trackTotal) {
        if id != e.logId {
          ReplaceSelected(logs0, f, x, OfLog(id));
          RemoveSelected(logs0[f := x], it, OfLog(id));
          CountedOther(base.counters[id], logs0, base.logs, id, base.trackTotal);
        }
      }
    }

    /** stats()->Drop and SetDropped(1): the message goes, a chatty element stands for it. */
    method DropMessage(it: nat)
      requires Ok() && it < |base.logs| && base.logs[it].dropped == 0   // CHECK_EQ(element.dropped_count, 0U)
      modifies base`logs, base`counters
      ensures Ok() && base.logs == old(base.logs)[it := SetDropped(old(base.logs)[it], 1)]
    {
      hide AllMarksOk, OldestOk, Counted, S.Drop, S.Agrees;
      ghost var logs0 := base.logs;
      var e := base.logs[it];
      var x := SetDropped(e, 1);
      CountedDrop(base.counters[e.logId], logs0, it, base.trackTotal);
      IndexAfterReplace(logs0, it, x);
      MarksAfterReplace(logs0, it, x, lastWorst, lastWorstPid);
      OldestAfterReplace(logs0, it, x, base.oldest);
      base.counters := base.counters[e.logId := S.Drop(base.counters[e.logId], Tally(e, base.trackTotal))];
      base.logs := base.logs[it := x];
      forall id: LogId ensures Counted(base.counters[id], base.logs, id, base.trackTotal) {
        if id != e.logId {
          ReplaceSelected(logs0, it, x, OfLog(id));
          CountedOther(base.counters[id], logs0, base.logs, id, base.trackTotal);
        }
      }
    }

    /** mLastWorst[id][key] = it and mLastWorstPidOfSystem[id][pid] = it, as far as asked for. */
    method Mark(it: nat, byKey: bool, byPid: bool)
      requires Ok() && it < |base.logs|
      modifies this
      ensures Ok()
      ensures var e := base.logs[it];
        && lastWorst == (if byKey then WithMark(old(lastWorst), e.logId, Key(e), e.sequence) else old(lastWorst))
        && lastWorstPid == (if byPid then WithPidMark(old(lastWorstPid), e.logId, e.pid, e.sequence) else old(lastWorstPid))
    {
      hide base.ListOk, IndexOf;
      ListProper();
      var e := base.logs[it];
      IndexIs(base.logs, it);
      if byPid {
        lastWorstPid := WithPidMark(lastWorstPid, e.logId, e.pid, e.sequence);
      }
      if byKey {
        lastWorst := WithMark(lastWorst, e.logId, Key(e), e.sequence);
      }
    }

    /** SimpleLogBuffer::LogInternal on the shared list: a new element disturbs no watermark. */
    method Append(e: LogElement)
      requires Valid() && Packable(e) && e.sequence < base.sequence && IndexOf(base.logs, e.sequence) == |base.logs|
      modifies base`logs, base`counters
      ensures Valid() && base.logs == old(base.logs) + [e]
    {
      hide base.ListOk, Proper;
      MarksAfterAppend(base.logs, e, lastWorst, lastWorstPid);
      base.Append(e);
    }

    // ---- First pass ----

    /** What the round remembers refers to chatty elements it has visited, and its erasing is a trim. */
    ghost predicate RoundOk(logs0: seq<LogElement>, from: nat, it: nat, last: map<nat, nat>, id: LogId, limit: Option<nat>, gone: seq<LogElement>)
      reads this, base
    {
      Ok() && LastOk(base.logs, from, it, last, id, limit) && Trimmed(logs0, base.logs, id, limit, gone)
    }

    /** Where a round stands that has gone as `st` tells. */
    ghost predicate Visiting(c: Cursor, s: Sweep, st: Story)
      reads this, base
    {
      RoundOk(st.before, st.from, c.it, c.last, s.id, s.limit, st.erased) && Underway(base.logs, lastWorst, lastWorstPid, c, s, st)
    }

    /** The element at `it` is one this pruning may touch. */
    predicate Ours(it: nat, id: LogId, limit: Option<nat>)
      reads base
    {
      it < |base.logs| && base.logs[it].logId == id && !Needed(base.logs[it], limit)
    }

    lemma OkStems(logs0: seq<LogElement>, id: LogId, limit: Option<nat>, gone: seq<LogElement>)
      requires Ok() && Trimmed(logs0, base.logs, id, limit, gone)
      ensures Proper(base.logs) && Stems(logs0, base.logs)
    {
    }

    lemma MarksBound()
      requires AllMarksOk(base.logs, lastWorst, lastWorstPid)
      ensures |lastWorst| == |lastWorstPid| == LOG_ID_MAX
    {
    }

    /** Erase(it): the element goes without a trace; `last` is what is remembered from then on. */
    method EraseInRound(c: Cursor, last: map<nat, nat>, s: Sweep, ghost st: Story) returns (ghost tt: Story)
      requires Visiting(c, s, st) && Ours(c.it, s.id, s.limit) && MayForget(base.logs, c, last, s)
      requires var e := base.logs[c.it]; (IsHigh(s, e) || c.leading) && (e.dropped == 0 ==> Doomed(s, e) && (IsHigh(s, e) || !OutOfTime(e, s)))
      modifies this, base`logs, base`oldest, base`counters
      ensures base.logs == RemoveAt(old(base.logs), c.it) && Visiting(c.(last := last), s, tt)
      ensures var e := old(base.logs)[c.it];
        && tt == With(st, e, e.dropped == 0, true) && Whole(base.logs) + (if e.dropped == 0 then 1 else 0) == old(Whole(base.logs))
    {
      hide AllMarksOk, base.ListOk, LastOk, Trimmed, RemoveAt, Whole, Underway, Doomed, IsHigh, OutOfTime, OnlyUnmarked, Reportable;
      ghost var logs0, m0, p0 := base.logs, lastWorst, lastWorstPid;
      ghost var e := base.logs[c.it];
      tt := With(st, e, e.dropped == 0, true);
      ListProper();
      WholeAt(base.logs, c.it, e);
      LastFewer(base.logs, st.from, c.it, c.last, s.id, s.limit, last);
      LastAfterErase(base.logs, st.from, c.it, last, s.id, s.limit);
      TrimErased(st.before, base.logs, s.id, s.limit, st.erased, c.it);
      Erase(c.it);
      OkStems(st.before, s.id, s.limit, tt.erased);
      OnlyUnmarkedKept(m0, p0, e.sequence);
      UnderwayErased(logs0, m0, p0, lastWorst, lastWorstPid, c, last, s, st);
    }

    lemma OnlyUnmarkedKept(m0: seq<map<int, nat>>, p0: seq<map<nat, nat>>, s: nat)
      requires OnlyUnmarked(m0, p0, lastWorst, lastWorstPid, s)
      ensures |m0| == |p0| == |lastWorst| == |lastWorstPid| == LOG_ID_MAX && MarksKept(m0, p0, lastWorst, lastWorstPid, s)
    {
    }

    /**
     LogBufferElementLast::coalesce and, if it succeeds, Erase(it, true). The count joins the last chatty element of
     the same source, if one is remembered and the sum is at most 65535; a larger sum starts a new count instead.
     */
    method Coalesce(it: nat, last: map<nat, nat>, id: LogId, limit: Option<nat>, ghost from: nat, ghost logs0: seq<LogElement>, ghost gone: seq<LogElement>)
      returns (merged: bool, now: map<nat, nat>, ghost f: nat)
      requires RoundOk(logs0, from, it, last, id, limit, gone) && Ours(it, id, limit) && base.logs[it].dropped > 0
      modifies this, base`logs, base`oldest, base`counters
      ensures RoundOk(logs0, from, it, now, id, limit, gone) && Whole(base.logs) == old(Whole(base.logs))
      ensures var was, key := old(base.logs), SourceKey(old(base.logs)[it]);
        && (key in last ==> f == IndexOf(was, last[key]) && from <= f < it && Chatty(was[f], id))
        && (merged <==> key in last && was[f].dropped + was[it].dropped <= USHRT_MAX)
        && now == (if merged then last else last - {key}) && base.logs == (if merged then Merged(was, f, it) else was)
        && if merged then OnlyUnmarked(old(lastWorst), old(lastWorstPid), lastWorst, lastWorstPid, was[it].sequence)
           else lastWorst == old(lastWorst) && lastWorstPid == old(lastWorstPid)
    {
      hide AllMarksOk, base.ListOk, Trimmed, RemoveAt, Merged, Whole, OnlyUnmarked;
      ListProper();
      var e := base.logs[it];
      var key := SourceKey(e);
      merged, now, f := false, last, 0;
      if key in last {
        assert LastEntryOk(base.logs, from, it, key, last[key], id, limit);
        f := IndexOf(base.logs, last[key]);
        if e.dropped + base.logs[IndexOf(base.logs, last[key])].dropped > USHRT_MAX {
          now := last - {key};
          LastFewer(base.logs, from, it, last, id, limit, now);
        } else {
          AllNarrow();
          SameKeySameSource(base.logs[f], e);
          MergedFacts(base.logs, f, it, last, id, limit, from);
          TrimMerged(logs0, base.logs, id, limit, gone, f, it);
          WholeMerged(base.logs, f, it);
          Merge(IndexOf(base.logs, last[key]), it);
          merged := true;
        }
      } else {
        assert last - {key} == last;
      }
    }

    lemma MergedFacts(logs: seq<LogElement>, f: nat, it: nat, last: map<nat, nat>, id: LogId, limit: Option<nat>, from: nat)
      requires Proper(logs) && f < it < |logs| && LastOk(logs, from, it, last, id, limit)
      requires 0 < logs[f].dropped && logs[f].dropped + logs[it].dropped <= USHRT_MAX
      ensures LastOk(Merged(logs, f, it), from, it, last, id, limit)
    {
      var x := SetDropped(logs[f], logs[f].dropped + logs[it].dropped);
      IndexAfterReplace(logs, f, x);
      LastAfterReplace(logs, from, it, last, id, limit, f, x);
      LastAfterErase(logs[f := x], from, it, last, id, limit);
    }

    /** A chatty element stays: it is the last of its source now and may become a watermark. */
    method Keep(it: nat, last: map<nat, nat>, id: LogId, limit: Option<nat>, byKey: bool, byPid: bool,
                ghost from: nat, ghost logs0: seq<LogElement>, ghost gone: seq<LogElement>) returns (now: map<nat, nat>)
      requires RoundOk(logs0, from, it, last, id, limit, gone) && Ours(it, id, limit) && base.logs[it].dropped > 0
      modifies this
      ensures RoundOk(logs0, from, it + 1, now, id, limit, gone)
      ensures now == last[SourceKey(base.logs[it]) := base.logs[it].sequence]
      ensures var e := base.logs[it];
        && lastWorst == (if byKey then WithMark(old(lastWorst), e.logId, Key(e), e.sequence) else old(lastWorst))
        && lastWorstPid == (if byPid then WithPidMark(old(lastWorstPid), e.logId, e.pid, e.sequence) else old(lastWorstPid))
    {
      hide AllMarksOk, base.ListOk, Trimmed, LastOk;
      ListProper();
      var e := base.logs[it];
      now := last[SourceKey(e) := e.sequence];
      LastStep(base.logs, from, it, last, id, limit, now);
      Mark(it, byKey, byPid);
    }

    /** The element at c.it is passed and stays as it is. */
    lemma Passed(c: Cursor, last: map<nat, nat>, s: Sweep, st: Story)
      requires Visiting(c.(last := last), s, st) && c.it < |base.logs| && !Chatty(base.logs[c.it], s.id)
      requires var e := base.logs[c.it]; !Needed(e, s.limit) && (e.logId == s.id ==> !OutOfTime(e, s)) && !Doomed(s, e)
      ensures Visiting(c.(it := c.it + 1, last := last, leading := c.leading && base.logs[c.it].logId != s.id), s, st)
    {
      hide AllMarksOk, base.ListOk, Trimmed, LastOk, Along, MarkedUp, OutOfTime, Doomed, Memory;
      ListProper();
      MarksBound();
      OkStems(st.before, s.id, s.limit, st.erased);
      LastStep(base.logs, st.from, c.it, last, s.id, s.limit, last);
      MemoryPassed(base.logs, st.from, c.it, last, s, st.erased);
      UnderwayStayed(base.logs, base.logs, lastWorst, lastWorstPid, lastWorst, lastWorstPid, c.(last := last), last, s, st);
    }

    /** One element of the inner loop; `stop` leaves the loop. A message that stays makes old sources be forgotten. */
    method Visit(c: Cursor, s: Sweep, ghost st: Story) returns (d: Cursor, stop: bool, ghost tt: Story)
      requires Visiting(c, s, st) && Going(c, s, st) && c.it < |base.logs|
      modifies this, base`logs, base`oldest, base`counters
      ensures Visiting(d, s, tt) && tt == st.(taken := tt.taken, erased := tt.erased) && Taken(old(base.logs), base.logs, c.left, d.left)
      ensures if stop then Ended(base.logs, d.it, d.left, d.kick, s, tt) else Going(d, s, tt) && |base.logs| - d.it < |old(base.logs)| - c.it
      ensures var e := old(base.logs)[c.it];
        e.logId == s.id && e.dropped == 0 && tt == st && !stop ==> d.last == Forget(base.logs, c.last, e)
    {
      hide Ok, LastOk, Trimmed, Whole, Underway, Ended, Going;
      d, stop, tt := c, false, st;
      var element := base.logs[c.it];
      if Needed(element, s.limit) {
        GoingEnds(base.logs, c, s, st);
        stop := true;
        return;
      }
      if element.logId != s.id {
        Passed(c, c.last, s, st);
        d := c.(it := c.it + 1);
        StillGoing(c, d, s, st, st);
        return;
      }
      if c.leading && element.dropped > 0 {
        tt := EraseInRound(c, c.last, s, st);
        StillGoing(c, d, s, st, tt);
        return;
      }
      if element.dropped > 0 {
        d, stop, tt := VisitChatty(c, s, st);
        return;
      }
      var key := if s.id == LOG_ID_EVENTS || s.id == LOG_ID_SECURITY then element.tag else element.uid;
      if s.high.Some? && s.high.value(element) {
        d, stop, tt := VisitHigh(c, c.last, s, st);
        assert |tt.erased| == |st.erased| + 1;
      } else if element.realtime < s.lastTime - TOO_OLD || element.realtime > s.lastTime {
        GoingEnds(base.logs, c, s, st);
        stop := true;
      } else if key != s.o.worst || (s.o.worstPid != 0 && element.pid != s.o.worstPid) {
        var last := Forgotten(c, s, st);
        Passed(c, last, s, st);
        d := c.(it := c.it + 1, last := last, leading := false);
        StillGoing(c, d, s, st, st);
      } else {
        d, stop, tt := VisitWorst(c, s, st);
        assert !stop ==> |tt.taken| == |st.taken| + 1;
      }
    }

    /** A chatty element further on: merged into the last one of its source, or kept, unless a high priority rule matches or the round ends. */
    method VisitChatty(c: Cursor, s: Sweep, ghost st: Story) returns (d: Cursor, stop: bool, ghost tt: Story)
      requires Visiting(c, s, st) && Going(c, s, st) && Ours(c.it, s.id, s.limit) && base.logs[c.it].dropped > 0 && !c.leading
      modifies this, base`logs, base`oldest, base`counters
      ensures Visiting(d, s, tt) && tt == st.(taken := tt.taken, erased := tt.erased) && Taken(old(base.logs), base.logs, c.left, d.left)
      ensures if stop then Ended(base.logs, d.it, d.left, d.kick, s, tt) else Going(d, s, tt) && |base.logs| - d.it < |old(base.logs)| - c.it
    {
      hide Ok, LastOk, Trimmed, Whole, Underway, Ended, Going, RemoveAt, OnlyUnmarked, IndexOf;
      OkStems(st.before, s.id, s.limit, st.erased);
      d, stop, tt := c, false, st;
      var element := base.logs[c.it];
      ghost var logs0, m0, p0, f := base.logs, lastWorst, lastWorstPid, 0;
      var merged, last;
      merged, last, f := Coalesce(c.it, c.last, s.id, s.limit, st.from, st.before, st.erased);
      if merged {
        MergedInRound(logs0, logs0, f, m0, p0, c, s, st);
        return;
      }
      var key := if s.id == LOG_ID_EVENTS || s.id == LOG_ID_SECURITY then element.tag else element.uid;
      if s.high.Some? && s.high.value(element) {
        d, stop, tt := VisitHigh(c, last, s, st);
      } else if element.realtime < s.lastTime - TOO_OLD || element.realtime > s.lastTime {
        GoingEnds(base.logs, c, s, st);
        stop := true;
      } else {
        last := KeepChatty(c, last, key, f, s, st);
        d := c.(it := c.it + 1, last := last);
        StillGoing(c, d, s, st, st);
      }
    }

    /** A chatty element that was not merged stays, and is a watermark of the offender or of a source that has none. */
    method KeepChatty(c: Cursor, fewer: map<nat, nat>, key: int, ghost f: nat, s: Sweep, ghost st: Story) returns (last: map<nat, nat>)
      requires Visiting(c, s, st) && !c.leading && Ours(c.it, s.id, s.limit) && base.logs[c.it].dropped > 0 && key == Key(base.logs[c.it])
      requires !OutOfTime(base.logs[c.it], s) && RoundOk(st.before, st.from, c.it, fewer, s.id, s.limit, st.erased)
      requires var from := SourceKey(base.logs[c.it]);
        && fewer == c.last - {from}
        && (from in c.last ==> f == IndexOf(base.logs, c.last[from]) && f < c.it && base.logs[f].dropped + base.logs[c.it].dropped > USHRT_MAX)
      modifies this
      ensures Visiting(c.(it := c.it + 1, last := last), s, st)
    {
      hide Ok, LastOk, Trimmed, Underway, OutOfTime, IndexOf;
      ghost var m0, p0 := lastWorst, lastWorstPid;
      var element := base.logs[c.it];
      OkMarks();
      var byPid := s.o.worstPid != 0 && ((!s.gc && element.pid == s.o.worstPid) || element.pid !in lastWorstPid[s.id]);
      var byKey := (!s.gc && s.o.worstPid == 0 && key == s.o.worst) || key !in lastWorst[s.id];
      last := Keep(c.it, fewer, s.id, s.limit, byKey, byPid, st.from, st.before, st.erased);
      KeptInRound(base.logs, base.logs, f, m0, p0, c, last, s, st, byKey, byPid);
    }

    lemma OkMarks()
      requires Ok()
      ensures |lastWorst| == |lastWorstPid| == LOG_ID_MAX
    {
    }

    /** The element of `logs0`, perhaps squashed in `mid`, has been merged into element f. */
    lemma MergedInRound(logs0: seq<LogElement>, mid: seq<LogElement>, f: nat, m0: seq<map<int, nat>>, p0: seq<map<nat, nat>>, c: Cursor, s: Sweep, st: Story)
      requires Underway(logs0, m0, p0, c, s, st) && (mid == logs0 || Squashed(logs0, mid, c.it)) && st.from <= f < c.it < |mid| && Proper(mid)
      requires base.logs == Merged(mid, f, c.it) && Chatty(mid[f], s.id) && Chatty(mid[c.it], s.id)
      requires RoundOk(st.before, st.from, c.it, c.last, s.id, s.limit, st.erased)
      requires OnlyUnmarked(m0, p0, lastWorst, lastWorstPid, mid[c.it].sequence)
      requires var e := logs0[c.it]; e.dropped == 0 ==> Doomed(s, e) && !IsHigh(s, e) && !OutOfTime(e, s) && !c.leading
      ensures Visiting(c, s, With(st, logs0[c.it], logs0[c.it].dropped == 0, false))
    {
      hide Ok, LastOk, Trimmed, Merged, Underway, OnlyUnmarked, Proper, Doomed, IsHigh, OutOfTime, Chatty;
      OkStems(st.before, s.id, s.limit, st.erased);
      OnlyUnmarkedKept(m0, p0, mid[c.it].sequence);
      UnderwayMerged(logs0, mid, f, m0, p0, lastWorst, lastWorstPid, c, s, st);
    }

    /** The element of `logs0`, perhaps squashed in `mid`, stays; it could not be merged into element f. */
    lemma KeptInRound(logs0: seq<LogElement>, mid: seq<LogElement>, f: nat, m0: seq<map<int, nat>>, p0: seq<map<nat, nat>>, c: Cursor, last: map<nat, nat>,
                      s: Sweep, st: Story, byKey: bool, byPid: bool)
      requires Underway(logs0, m0, p0, c, s, st) && !c.leading && (mid == logs0 || Squashed(logs0, mid, c.it)) && c.it < |mid| && base.logs == mid
      requires Chatty(mid[c.it], s.id) && RoundOk(st.before, st.from, c.it + 1, last, s.id, s.limit, st.erased)
      requires last == c.last[SourceKey(mid[c.it]) := mid[c.it].sequence]
      requires SourceKey(mid[c.it]) in c.last ==>
        f == IndexOf(mid, c.last[SourceKey(mid[c.it])]) && f < c.it && mid[f].dropped + mid[c.it].dropped > USHRT_MAX
      requires |m0| == |p0| == LOG_ID_MAX && MarkedBy(m0, p0, mid[c.it], s, byKey, byPid)
      requires var e := logs0[c.it];
        && !Needed(e, s.limit) && !OutOfTime(e, s) && (e.dropped == 0 ==> Doomed(s, e) && !IsHigh(s, e))
      ensures Visiting(c.(it := c.it + 1, last := last), s, With(st, logs0[c.it], logs0[c.it].dropped == 0, false))
    {
      hide Ok, LastOk, Trimmed, Underway, Proper, OutOfTime, Memory, IsHigh, SourceKey, MarkIs, Markable, MarkedBy, Stems, IndexOf;
      OkStems(st.before, s.id, s.limit, st.erased);
      MarksOf(m0, p0, mid[c.it], s, byKey, byPid);
      KeptMemory(logs0, mid, f, m0, p0, c, s, st);
      UnderwayStayed(logs0, mid, m0, p0, lastWorst, lastWorstPid, c, last, s, st);
    }

    lemma KeptMemory(logs0: seq<LogElement>, mid: seq<LogElement>, f: nat, m0: seq<map<int, nat>>, p0: seq<map<nat, nat>>, c: Cursor, s: Sweep, st: Story)
      requires Underway(logs0, m0, p0, c, s, st) && (mid == logs0 || Squashed(logs0, mid, c.it)) && c.it < |mid| && Proper(mid) && Chatty(mid[c.it], s.id)
      requires SourceKey(mid[c.it]) in c.last ==>
        f == IndexOf(mid, c.last[SourceKey(mid[c.it])]) && f < c.it && mid[f].dropped + mid[c.it].dropped > USHRT_MAX
      ensures Memory(mid, st.from, c.it + 1, c.last[SourceKey(mid[c.it]) := mid[c.it].sequence], s, st.erased)
    {
      hide Along, MarkedUp, Proper, Memory, IndexOf, SourceKey;
      assert mid[..c.it] == logs0[..c.it];
      MemoryPrefix(logs0, mid, st.from, c.it, c.last, s, st.erased);
      MemoryKept(mid, st.from, c.it, c.last, s, st.erased);
    }

    /** The watermarks are those before, set to e as far as asked for, which they are for the worst offender outside a collection. */
    predicate MarkedBy(m0: seq<map<int, nat>>, p0: seq<map<nat, nat>>, e: LogElement, s: Sweep, byKey: bool, byPid: bool)
      requires |m0| == |p0| == LOG_ID_MAX
      reads this
    {
      && lastWorst == (if byKey then WithMark(m0, e.logId, Key(e), e.sequence) else m0)
      && lastWorstPid == (if byPid then WithPidMark(p0, e.logId, e.pid, e.sequence) else p0)
      && (Markable(e, s) && !s.gc ==> if s.o.worstPid == 0 then byKey else byPid)
    }

    lemma MarksOf(m0: seq<map<int, nat>>, p0: seq<map<nat, nat>>, e: LogElement, s: Sweep, byKey: bool, byPid: bool)
      requires |m0| == |p0| == LOG_ID_MAX && MarkedBy(m0, p0, e, s, byKey, byPid) && Chatty(e, s.id)
      ensures |lastWorst| == |lastWorstPid| == LOG_ID_MAX
      ensures if Markable(e, s) then !s.gc ==> MarkIs(lastWorst, lastWorstPid, s, e.sequence)
              else forall n :: MarkIs(m0, p0, s, n) ==> MarkIs(lastWorst, lastWorstPid, s, n)
    {
    }

    /** LogBufferElementLast::clear: of the sources remembered, those with a count to report that are too far back are forgotten. */
    method Forgotten(c: Cursor, s: Sweep, ghost st: Story) returns (last: map<nat, nat>)
      requires Visiting(c, s, st) && c.it < |base.logs|
      ensures Visiting(c.(last := last), s, st) && last == Forget(base.logs, c.last, base.logs[c.it])
    {
      hide Ok, Trimmed, LastOk, Along, Memory, MarkedUp;
      last := Forget(base.logs, c.last, base.logs[c.it]);
      LastFewer(base.logs, st.from, c.it, c.last, s.id, s.limit, last);
      ForgotReportable(base.logs, c.last, base.logs[c.it]);
      OkStems(st.before, s.id, s.limit, st.erased);
      MemoryForgot(base.logs, st.from, c.it, c.last, last, s, st.erased, st.erased);
    }

    lemma ForgetMore(logs: seq<LogElement>, c: Cursor, fewer: map<nat, nat>, s: Sweep)
      requires c.it < |logs| && IsHigh(s, logs[c.it]) && (fewer == c.last || (logs[c.it].dropped > 0 && fewer == c.last - {SourceKey(logs[c.it])}))
      ensures MayForget(logs, c, Forget(logs, fewer, logs[c.it]), s)
    {
      ForgotReportable(logs, fewer, logs[c.it]);
    }

    lemma ForgotReportable(logs: seq<LogElement>, last: map<nat, nat>, e: LogElement)
      ensures var fewer := Forget(logs, last, e); forall k :: k in last ==> if k in fewer then fewer[k] == last[k] else Reportable(logs, last[k])
    {
    }

    /** A high priority prune rule matches: the element goes, whoever it is from. */
    method VisitHigh(c: Cursor, fewer: map<nat, nat>, s: Sweep, ghost st: Story) returns (d: Cursor, stop: bool, ghost tt: Story)
      requires Visiting(c, s, st) && Going(c, s, st) && Ours(c.it, s.id, s.limit) && IsHigh(s, base.logs[c.it])
      requires fewer == c.last || (base.logs[c.it].dropped > 0 && fewer == c.last - {SourceKey(base.logs[c.it])})
      modifies this, base`logs, base`oldest, base`counters
      ensures Visiting(d, s, tt) && tt == With(st, old(base.logs)[c.it], old(base.logs)[c.it].dropped == 0, true)
      ensures Taken(old(base.logs), base.logs, c.left, d.left) && d.it == c.it && d.last == Forget(old(base.logs), fewer, old(base.logs)[c.it])
      ensures if stop then Ended(base.logs, d.it, d.left, d.kick, s, tt) else Going(d, s, tt) && |base.logs| - d.it < |old(base.logs)| - c.it
    {
      hide Ok, LastOk, Trimmed, Whole, Underway, IsHigh, OutOfTime, NoLongerWorst, HasWorst, Spent, RemoveAt;
      var element := base.logs[c.it];
      var key := if s.id == LOG_ID_EVENTS || s.id == LOG_ID_SECURITY then element.tag else element.uid;
      var last := Forget(base.logs, fewer, element);
      ForgetMore(base.logs, c, fewer, s);
      tt := EraseInRound(c, last, s, st);
      d, stop := c.(last := last), false;
      if element.dropped > 0 {
        StillGoing(c, d, s, st, tt);
        return;
      }
      VisitedAny(c.(last := last), s, tt);
      OneMoreTaken(c, s, st, element);
      AllOfTaken(s, tt.taken);
      d := d.(left := d.left - 1);
      if d.left == 0 {
        stop := true;
        return;
      }
      if key == s.o.worst {
        d := d.(kick := true);
        if d.sizes < s.o.second {
          stop := true;
          return;
        }
        d := d.(sizes := (d.sizes - |element.msg|) % SIZE_T);
      }
    }

    /** A message of the worst offender: gone at the front of the log, squashed further on. */
    method VisitWorst(c: Cursor, s: Sweep, ghost st: Story) returns (d: Cursor, stop: bool, ghost tt: Story)
      requires Visiting(c, s, st) && Going(c, s, st) && Ours(c.it, s.id, s.limit)
      requires Doomed(s, base.logs[c.it]) && !IsHigh(s, base.logs[c.it]) && !OutOfTime(base.logs[c.it], s)
      modifies this, base`logs, base`oldest, base`counters
      ensures Visiting(d, s, tt) && tt == With(st, old(base.logs)[c.it], c.left > 1, c.left > 1 && c.leading) && (c.left <= 1 ==> stop)
      ensures Taken(old(base.logs), base.logs, c.left, d.left)
      ensures if stop then Ended(base.logs, d.it, d.left, d.kick, s, tt) else Going(d, s, tt) && |base.logs| - d.it < |old(base.logs)| - c.it
    {
      hide Ok, LastOk, Trimmed, Whole, Underway, OutOfTime, NoLongerWorst, HasWorst, Spent, RemoveAt;
      tt := st;
      d, stop := c.(left := c.left - 1), false;
      if d.left == 0 {
        VisitedAny(c, s, st);
        stop := true;
        return;
      }
      d := d.(kick := true);
      var element := base.logs[c.it];
      OneMoreTaken(c, s, st, element);
      if d.leading {
        tt := EraseInRound(c, c.last, s, st);
      } else {
        var it, last;
        it, last, tt := Squash(c, s, st);
        d := d.(it := it, last := last);
      }
      AllOfTaken(s, tt.taken);
      VisitedAny(c.(it := d.it, last := d.last), s, tt);
      if d.sizes < s.o.second {
        stop := true;
        return;
      }
      d := d.(sizes := (d.sizes - |element.msg|) % SIZE_T);
    }

    /** Only the place, what is remembered and whether the round still leads matter for where it stands. */
    lemma VisitedAny(c: Cursor, s: Sweep, st: Story)
      requires Visiting(c, s, st)
      ensures c.it <= |base.logs| && forall d: Cursor :: d.it == c.it && d.last == c.last && d.leading == c.leading ==> Visiting(d, s, st)
    {
      hide Ok, Trimmed, LastOk, Along, Memory, MarkedUp;
    }

    /** The message becomes a chatty element, merged into the last one of its source if there is one with room. */
    method Squash(c: Cursor, s: Sweep, ghost st: Story) returns (it: nat, last: map<nat, nat>, ghost tt: Story)
      requires Visiting(c, s, st) && Ours(c.it, s.id, s.limit) && !c.leading
      requires Doomed(s, base.logs[c.it]) && !IsHigh(s, base.logs[c.it]) && !OutOfTime(base.logs[c.it], s)
      modifies this, base`logs, base`oldest, base`counters
      ensures Visiting(c.(it := it, last := last), s, tt) && tt == With(st, old(base.logs)[c.it], true, false)
      ensures |base.logs| - it == |old(base.logs)| - c.it - 1 && |base.logs| <= |old(base.logs)| && Whole(base.logs) + 1 == old(Whole(base.logs))
    {
      hide AllMarksOk, base.ListOk, LastOk, Trimmed, Whole, Underway, OnlyUnmarked, OutOfTime;
      it, tt := c.it, With(st, base.logs[c.it], true, false);
      ghost var logs0, m0, p0, f := base.logs, lastWorst, lastWorstPid, 0;
      ListProper();
      WholeAt(base.logs, it, SetDropped(base.logs[it], 1));
      LastAfterReplace(base.logs, st.from, it, c.last, s.id, s.limit, it, SetDropped(base.logs[it], 1));
      TrimDropped(st.before, base.logs, s.id, s.limit, st.erased, it);
      DropMessage(it);
      ListProper();
      ghost var mid := base.logs;
      var merged;
      merged, last, f := Coalesce(it, c.last, s.id, s.limit, st.from, st.before, st.erased);
      if merged {
        MergedInRound(logs0, mid, f, m0, p0, c, s, st);
      } else {
        MarksBound();
        var byPid := s.o.worstPid != 0 && (!s.gc || s.o.worstPid !in lastWorstPid[s.id]);
        var byKey := (!s.gc && s.o.worstPid == 0) || s.o.worst !in lastWorst[s.id];
        last := Keep(it, last, s.id, s.limit, byKey, byPid, st.from, st.before, st.erased);
        KeptInRound(logs0, mid, f, m0, p0, c, last, s, st, byKey, byPid);
        it := it + 1;
      }
    }

    /** The list and the watermarks as they are, with so many rows left. */
    ghost function Now(left: nat): Stage
      reads this, base
    {
      Stage(base.logs, lastWorst, lastWorstPid, left)
    }

    /** One round of the first pass, from the offender's watermark or the oldest element on. */
    method Round(s: Sweep, rows: nat) returns (left: nat, kick: bool, ghost r: PastRound)
      requires Ok() && rows > 0
      modifies this, base`logs, base`oldest, base`counters
      ensures Ok() && RoundDone(r) && r.s == s && r.kick == kick && StageBefore(r) == old(Now(rows)) && StageAfter(r) == Now(left)
      ensures Taken(old(base.logs), base.logs, rows, left)
    {
      hide AllMarksOk, base.ListOk, LastOk, Trimmed, Whole, Underway, Ended;
      var it, leading := StartOfRound(s, rows);
      ListProper();
      MarksBound();
      var d := Cursor(it, map[], leading, false, rows, s.o.sizes);
      ghost var st := Story(base.logs, it, leading, rows, [], []);
      RoundStarts(d, s, st);
      UnderwayStarts(base.logs, lastWorst, lastWorstPid, d, s);
      var stop := false;
      while !stop && d.it < |base.logs|
        invariant Visiting(d, s, st) && st == Story(old(base.logs), it, leading, rows, st.taken, st.erased)
        invariant if stop then Ended(base.logs, d.it, d.left, d.kick, s, st) else Going(d, s, st)
        invariant Taken(old(base.logs), base.logs, rows, d.left)
        decreases !stop, |base.logs| - d.it
      {
        d, stop, st := Visit(d, s, st);
      }
      left, kick := d.left, d.kick;
      if !stop { RoundRunsOut(d, s, st); }
      r := PastRound(s, st, old(lastWorst), old(lastWorstPid), base.logs, lastWorst, lastWorstPid, d.it, left, kick);
      RoundEnds(r, d);
    }

    lemma RoundStarts(c: Cursor, s: Sweep, st: Story)
      requires Ok() && c.it <= |base.logs| && c.last == map[] && st == Story(base.logs, c.it, c.leading, c.left, [], [])
      requires c.left > 0 && !c.kick && c.sizes == s.o.sizes
      ensures RoundOk(st.before, st.from, c.it, c.last, s.id, s.limit, st.erased) && Going(c, s, st)
    {
      TrimNothing(base.logs, s.id, s.limit);
    }

    lemma RoundRunsOut(c: Cursor, s: Sweep, st: Story)
      requires Visiting(c, s, st) && Going(c, s, st) && c.it >= |base.logs|
      ensures Ended(base.logs, c.it, c.left, c.kick, s, st)
    {
      hide Ok, Trimmed, Along, Memory, MarkedUp;
      GoingEnds(base.logs, c, s, st);
    }

    lemma RoundEnds(r: PastRound, c: Cursor)
      requires Visiting(c, r.s, r.st) && r.after == base.logs && r.m1 == lastWorst && r.p1 == lastWorstPid && r.it == c.it
      requires |r.m0| == |r.p0| == LOG_ID_MAX && Begins(r.s, r.st, r.m0, r.p0) && Ended(r.after, r.it, r.left, r.kick, r.s, r.st)
      ensures RoundDone(r)
    {
      hide Ok, Trimmed, Begins, Ended, Proper, Stems, Placed, AccountedFor, ForCause, Clean, WellErased, Remembered, Compact, MarkedUp;
    }

    /** From the watermark of the offender's pid, or else of its key, if one is set, and otherwise from the oldest element of the log. */
    method StartOfRound(s: Sweep, ghost rows: nat) returns (it: nat, leading: bool)
      requires Ok()
      modifies base`oldest
      ensures Ok() && it <= |base.logs| && (leading ==> it == FirstOf(base.logs, s.id))
      ensures |lastWorst| == |lastWorstPid| == LOG_ID_MAX && Begins(s, Story(base.logs, it, leading, rows, [], []), lastWorst, lastWorstPid)
    {
      hide AllMarksOk, base.ListOk;
      MarksBound();
      it, leading := 0, true;
      if !s.gc && s.o.worst != -1 {
        if s.o.worst in lastWorst[s.id] {
          it, leading := IndexOf(base.logs, lastWorst[s.id][s.o.worst]), false;
        }
        if s.o.worstPid != 0 && s.o.worstPid in lastWorstPid[s.id] {
          it, leading := IndexOf(base.logs, lastWorstPid[s.id][s.o.worstPid]), false;
        }
      }
      if leading {
        it := base.GetOldest(s.id);
      }
    }

    /** Rounds until enough rows are gone, there is nothing to go by, or a round does not ask for another. */
    method FirstPass(id: LogId, limit: Option<nat>, rows: nat, offenders: nat -> Offender, rules: Rules)
      returns (left: nat, ghost rs: seq<PastRound>)
      requires Ok()
      modifies this, base`logs, base`oldest, base`counters
      ensures Ok() && Trimmed(old(base.logs), base.logs, id, limit, AllErased(rs)) && Taken(old(base.logs), base.logs, rows, left)
      ensures FirstPassDone(rs, Job(id, limit, rows, offenders, rules.high, rules.worstUid), old(Now(rows)), Now(left))
    {
      hide Ok, Whole, Trimmed, RoundDone;
      left, rs := rows, [];
      ghost var j := Job(id, limit, rows, offenders, rules.high, rules.worstUid);
      TrimNothing(base.logs, id, limit);
      while left > 0
        invariant Ok() && Trimmed(old(base.logs), base.logs, id, limit, AllErased(rs)) && Taken(old(base.logs), base.logs, rows, left)
        invariant Rounds(rs, j, old(Now(rows)), Now(left)) && AsksForMore(j, rs)
        decreases left
      {
        var o := offenders(left);
        if o.worst == -1 && rules.high.None? {
          break;
        }
        var lastTime := if |base.logs| > 0 then base.logs[|base.logs| - 1].realtime else 0;
        ghost var logs1 := base.logs;
        var kick;
        ghost var r;
        left, kick, r := Round(Sweep(id, limit, o, rules.high, left <= 1, lastTime), left);
        RoundsNext(rs, j, old(Now(rows)), r);
        RoundTrims(r);
        TrimTwice(old(base.logs), logs1, base.logs, id, limit, AllErased(rs), r.st.erased);
        AllErasedNext(rs, r);
        rs := rs + [r];
        if !kick || !rules.worstUid {
          break;
        }
      }
    }

    // ---- Erasing from the oldest on ----

    /** Erases matching elements, at most `rows` of them, up to the first one a reader needs: the third pass and the clear of one uid. */
    method EraseMatching(id: LogId, rows: nat, callerUid: uint32, limit: Option<nat>) returns (left: nat, it: nat)
      requires Ok() && rows > 0
      modifies this, base`logs, base`oldest, base`counters
      ensures Ok() && it <= |base.logs|
      ensures var p := Matches(id, callerUid);
        var free := Free(Select(old(base.logs), p), limit);
        && left == (if rows <= free then 0 else rows - free) && base.logs == DropFirst(old(base.logs), p, rows - left)
        && (left > 0 ==> (it == |base.logs| <==> free == |Select(old(base.logs), p)|))
    {
      hide Ok, DropFirst, Free, Select, Pruning, RemoveAt, Needed, NoneBefore;
      ghost var logs0, p := base.logs, Matches(id, callerUid);
      it := OldestOf(id, p, limit);
      left := rows;
      ghost var m: nat := it;
      ghost var gone: nat := 0;
      while it < |base.logs| && left > 0
        invariant Ok() && Pruning(logs0, base.logs, it, m, p, limit, gone) && left == rows - gone
        decreases |base.logs| - it
      {
        PruningAt(logs0, base.logs, it, m, p, limit, gone);
        var element := base.logs[it];
        if element.logId != id || (callerUid != 0 && element.uid != callerUid) {
          PassOver(logs0, base.logs, it, m, p, limit, gone);
          it, m := it + 1, m + 1;
          continue;
        }
        if Needed(element, limit) {
          Stopped(logs0, base.logs, it, m, p, limit, gone);
          return;
        }
        TakeOut(logs0, base.logs, it, m, p, limit, gone);
        Erase(it);
        m, gone, left := m + 1, gone + 1, left - 1;
      }
      Enough(logs0, base.logs, it, m, p, limit, gone);
      if it >= |base.logs| { RunOut(logs0, base.logs, it, m, p, limit, gone); }
      assert it <= |base.logs| by { PruningBound(logs0, base.logs, it, m, p, limit, gone); }
    }

    lemma PruningBound(logs0: seq<LogElement>, logs: seq<LogElement>, it: nat, m: nat, p: LogElement -> bool, limit: Option<nat>, gone: nat)
      requires Pruning(logs0, logs, it, m, p, limit, gone)
      ensures it <= |logs|
    {
    }

    lemma OkList()
      requires Ok()
      ensures base.ListOk()
    {
    }

    /** Where erasing starts: nothing of the log lies before its oldest element. */
    method OldestOf(id: LogId, ghost p: LogElement -> bool, ghost limit: Option<nat>) returns (it: nat)
      requires Ok() && forall e :: p(e) ==> e.logId == id
      modifies base`oldest
      ensures Ok() && it <= |base.logs| && NoneBefore(base.logs, it, id) && Pruning(base.logs, base.logs, it, it, p, limit, 0)
    {
      hide AllMarksOk, base.ListOk, Pruning;
      it := base.GetOldest(id);
      PruningStarts(base.logs, p, it, id, limit);
    }

    /** The second pass: erases the oldest elements it may, up to the first of the log that a reader needs. */
    method SecondPass(id: LogId, rows: nat, limit: Option<nat>, low: Option<LogElement -> bool>) returns (left: nat, it: nat, skipped: bool)
      requires Ok()
      modifies this, base`logs, base`oldest, base`counters
      ensures Ok() && left <= rows && it <= |base.logs| && (low.None? ==> !skipped)
      ensures var p := Prunable(id, low);
        && rows - left <= Free(Select(old(base.logs), p), limit) && base.logs == DropFirst(old(base.logs), p, rows - left)
        && (left > 0 && it == |base.logs| ==> rows - left == |Select(old(base.logs), p)|)
        && (left > 0 && low.None? ==> rows - left == Free(Select(old(base.logs), p), limit))
      ensures left > 0 && it == |base.logs| && !skipped ==> NoneBefore(base.logs, |base.logs|, id)
      ensures left > 0 && it < |base.logs| ==> base.logs[it].logId == id && Needed(base.logs[it], limit)
      ensures left > 0 && !skipped ==> Exhausted(base.logs, id, limit)
      ensures rows - left == SecondTakes(old(base.logs), rows, id, limit, low)
    {
      hide Ok, DropFirst, Free, Select, Pruning, RemoveAt, Exhausted, NoneNeeded, SecondTakes;
      ghost var logs0, p := base.logs, Prunable(id, low);
      it := OldestOf(id, p, limit);
      left, skipped := rows, false;
      NothingBefore(logs0, it, id, limit);
      ghost var m: nat := it;
      ghost var gone: nat := 0;
      while left > 0 && it < |base.logs|
        invariant Ok() && Pruning(logs0, base.logs, it, m, p, limit, gone) && left == rows - gone && it <= |base.logs|
        invariant (!skipped ==> NoneBefore(base.logs, it, id)) && (low.None? ==> !skipped)
        invariant m <= |logs0| && NoneNeeded(logs0, m, id, limit)
        decreases |base.logs| - it
      {
        PruningAt(logs0, base.logs, it, m, p, limit, gone);
        var element := base.logs[it];
        NextNotNeeded(logs0, m, id, limit);
        if element.logId != id {
          PassOver(logs0, base.logs, it, m, p, limit, gone);
          it, m := it + 1, m + 1;
          continue;
        }
        if Needed(element, limit) {
          Enough(logs0, base.logs, it, m, p, limit, gone);
          UpTo(logs0, base.logs, it, m, p, limit, gone);
          TakesUpTo(logs0, rows, id, limit, low, m, gone);
          if !skipped { ExhaustedAt(base.logs, it, id, limit); }
          if low.None? { Stopped(logs0, base.logs, it, m, p, limit, gone); }
          return;
        }
        if low.Some? && element.dropped == 0 && low.value(element) {
          PassOver(logs0, base.logs, it, m, p, limit, gone);
          skipped := true;
          it, m := it + 1, m + 1;
          continue;
        }
        TakeOut(logs0, base.logs, it, m, p, limit, gone);
        NoneBeforeKept(base.logs, it, id);
        Erase(it);
        m, gone, left := m + 1, gone + 1, left - 1;
      }
      Enough(logs0, base.logs, it, m, p, limit, gone);
      if it >= |base.logs| {
        RunOut(logs0, base.logs, it, m, p, limit, gone);
        if !skipped { ExhaustedAt(base.logs, it, id, limit); }
      }
      UpTo(logs0, base.logs, it, m, p, limit, gone);
      TakesUpTo(logs0, rows, id, limit, low, m, gone);
    }

    lemma UpTo(logs0: seq<LogElement>, logs: seq<LogElement>, it: nat, m: nat, p: LogElement -> bool, limit: Option<nat>, gone: nat)
      requires Pruning(logs0, logs, it, m, p, limit, gone)
      ensures m <= |logs0| && gone == |Select(logs0[..m], p)| && (it == |logs| ==> m == |logs0|)
    {
      assert |logs[it..]| == |logs0[m..]|;
    }

    lemma NextNotNeeded(logs: seq<LogElement>, m: nat, id: LogId, limit: Option<nat>)
      requires m < |logs| && NoneNeeded(logs, m, id, limit)
      ensures !(logs[m].logId == id && Needed(logs[m], limit)) ==> NoneNeeded(logs, m + 1, id, limit)
    {
    }

    lemma NothingBefore(logs: seq<LogElement>, m: nat, id: LogId, limit: Option<nat>)
      requires m <= |logs| && NoneBefore(logs, m, id)
      ensures NoneNeeded(logs, m, id, limit)
    {
    }

    lemma NoneBeforeKept(logs: seq<LogElement>, it: nat, id: LogId)
      requires it < |logs|
      ensures NoneBefore(logs, it, id) ==> NoneBefore(RemoveAt(logs, it), it, id)
    {
    }

    // ---- All of it ----

    /**
     Prune: whatever the statistics and rules say, other logs and everything a watching reader still needs
     stay as they are, no more messages are taken than rows were asked for, merging loses none, and rows are left
     only if a reader needs the oldest element of the log there is, which is a failure, or there is none. Every row
     used takes an element out or squashes a message, but for one a first pass may waste.

     Unless all is to go, the first pass is rounds after the offenders and high priority rules given, as long as
     there are any and the last round asks for more, and the other passes take what rows are left, low priority
     messages last. A caller other than root loses exactly its own oldest elements.
     */
    method Prune(id: LogId, pruneRows: nat, callerUid: uint32, offenders: nat -> Offender, rules: Rules) returns (ok: bool, ghost o: Outcome)
      requires Valid()
      modifies this, base`logs, base`oldest, base`counters
      ensures Valid() && IsLimit(base.readers, id, o.limit)
      ensures PruneDone(old(Now(pruneRows)), base.logs, ok, o, id, callerUid, offenders, rules)
      ensures forall r, e :: r in base.readers && e in old(base.logs) && e.logId in r.mask && r.start <= e.sequence ==> e in base.logs
    {
      hide Ok, PruneDone, base.ListOk, Select;
      var reader := base.OldestReader(id);
      var bound := if reader.None? then None else Some(reader.value.start);
      if callerUid != 0 {
        ok, o := ClearUid(id, pruneRows, callerUid, bound, offenders, rules);
      } else {
        ok, o := ThreePasses(id, pruneRows, bound, offenders, rules);
      }
      forall r, e | r in base.readers && e in old(base.logs) && e.logId in r.mask && r.start <= e.sequence
        ensures e in base.logs
      {
        StillThere(old(Now(pruneRows)), base.logs, ok, o, id, callerUid, offenders, rules, e);
      }
      forall r | r in base.readers ensures base.WindowOk(r) { assert old(base.WindowOk(r)); }
      OkList();
    }

    method ClearUid(id: LogId, pruneRows: nat, callerUid: uint32, limit: Option<nat>, ghost offenders: nat -> Offender, ghost rules: Rules)
      returns (ok: bool, ghost o: Outcome)
      requires Ok() && callerUid != 0
      modifies this, base`logs, base`oldest, base`counters
      ensures Ok() && o.limit == limit && PruneDone(old(Now(pruneRows)), base.logs, ok, o, id, callerUid, offenders, rules)
    {
      hide Ok, DropFirst, Free, Select, Trimmed;
      ghost var logs0 := base.logs;
      assert Proper(logs0) by { OkList(); ListProper(); }
      var left, it := EraseMatching(id, if pruneRows == 0 then ULONG_MAX + 1 else pruneRows, callerUid, limit);
      TrimNothing(logs0, id, limit);
      TrimAgain(logs0, logs0, id, limit, [], Matches(id, callerUid), Rows(pruneRows) - left);
      o := Outcome(left, limit, [] + Select(logs0, Matches(id, callerUid))[..Rows(pruneRows) - left], [], Now(left));
      ok := left == 0 || it == |base.logs|;
    }

    method ThreePasses(id: LogId, pruneRows: nat, limit: Option<nat>, offenders: nat -> Offender, rules: Rules) returns (ok: bool, ghost o: Outcome)
      requires Ok()
      modifies this, base`logs, base`oldest, base`counters
      ensures Ok() && o.limit == limit && PruneDone(old(Now(pruneRows)), base.logs, ok, o, id, 0, offenders, rules)
    {
      hide Ok, Trimmed, DropFirst, Free, Select, Whole, Exhausted, FirstPassDone, LaterPasses, Proper, Rounds;
      ghost var logs0 := base.logs;
      var clearAll := pruneRows == ULONG_MAX;
      var plain := id == LOG_ID_SECURITY;
      var left := pruneRows;
      ghost var gone: seq<LogElement>, rs: seq<PastRound> := [], [];
      TrimNothing(logs0, id, limit);
      if !clearAll {
        left, rs := FirstPass(id, limit, pruneRows, offenders, if plain then rules.(high := None) else rules);
        gone := AllErased(rs);
      }
      ghost var mid := Now(left);
      ghost var rows1, gone1 := left, gone;
      assert Proper(mid.logs) by { OkList(); ListProper(); }
      ok, left, gone := SecondAndThirdPass(id, left, limit, if plain || clearAll then None else rules.low, logs0, gone1);
      o := Outcome(left, limit, gone, rs, mid);
    }

    /** The passes that erase from the oldest element on; the third takes low priority messages, too. */
    method SecondAndThirdPass(id: LogId, rows: nat, limit: Option<nat>, low: Option<LogElement -> bool>, ghost logs0: seq<LogElement>, ghost gone0: seq<LogElement>)
      returns (ok: bool, left: nat, ghost gone: seq<LogElement>)
      requires Ok() && Trimmed(logs0, base.logs, id, limit, gone0)
      modifies this, base`logs, base`oldest, base`counters
      ensures Ok() && Trimmed(logs0, base.logs, id, limit, gone) && LaterPasses(old(base.logs), rows, id, limit, low, base.logs, left)
      ensures left <= rows && (ok <==> left == 0 || NoneBefore(base.logs, |base.logs|, id)) && (left > 0 ==> Exhausted(base.logs, id, limit))
      ensures Whole(base.logs) <= Whole(old(base.logs)) <= Whole(base.logs) + (rows - left) && |base.logs| + (rows - left) == |old(base.logs)|
      ensures low.None? ==>
        var free := Free(Select(old(base.logs), Matches(id, 0)), limit);
        base.logs == DropFirst(old(base.logs), Matches(id, 0), if rows <= free then rows else free)
    {
      hide Ok, Trimmed, DropFirst, Free, Select, Whole, Exhausted, LaterPasses, SecondTakes, Proper;
      ghost var logs1 := base.logs;
      assert Proper(logs1) by { OkList(); ListProper(); }
      var it, skipped;
      left, it, skipped := SecondPass(id, rows, limit, low);
      gone := Dropped(logs0, logs1, base.logs, Prunable(id, low), rows - left, id, limit, gone0);
      if skipped && left > 0 {
        ghost var logs2, rows2, gone2 := base.logs, left, gone;
        assert Proper(logs2) by { OkList(); ListProper(); }
        left, it := EraseMatching(id, left, 0, limit);
        gone := Dropped(logs0, logs2, base.logs, Matches(id, 0), rows2 - left, id, limit, gone2);
        DropAllFree(logs2, id, limit);
        if left > 0 { AllFreeGone(logs2, id, limit); }
        SecondAndThird(logs1, rows, id, limit, low, logs2, rows2, base.logs, left);
      } else {
        SecondOnly(logs1, rows, id, limit, low, base.logs, left);
      }
      ok := left == 0 || it == |base.logs|;
    }

    lemma StillThere(a: Stage, now: seq<LogElement>, ok: bool, o: Outcome, id: LogId, callerUid: uint32, offenders: nat -> Offender, rules: Rules, e: LogElement)
      requires PruneDone(a, now, ok, o, id, callerUid, offenders, rules) && e in a.logs && (e.logId != id || Needed(e, o.limit))
      ensures e in now
    {
      TrimKeepsNeeded(a.logs, now, id, o.limit, o.gone, e);
    }

    /** Erasing the first n prunable elements on top of what was trimmed before. */
    lemma Dropped(logs0: seq<LogElement>, logs1: seq<LogElement>, logs2: seq<LogElement>, p: LogElement -> bool, n: nat, id: LogId,
                  limit: Option<nat>, gone: seq<LogElement>) returns (more: seq<LogElement>)
      requires Trimmed(logs0, logs1, id, limit, gone) && Proper(logs1) && logs2 == DropFirst(logs1, p, n) && n <= Free(Select(logs1, p), limit)
      requires forall e :: p(e) ==> e.logId == id
      ensures Trimmed(logs0, logs2, id, limit, more) && Whole(logs2) <= Whole(logs1) <= Whole(logs2) + n && |logs2| + n == |logs1|
      ensures n <= |Select(logs1, p)| && more == gone + Select(logs1, p)[..n]
    {
      hide Select, Free, DropFirst, Trimmed;
      TrimAgain(logs0, logs1, id, limit, gone, p, n);
      WholeDropped(logs1, p, n);
      more := gone + Select(logs1, p)[..n];
    }
  }
}
