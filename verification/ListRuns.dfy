/**
 The Chatty buffer as a whole: the slots that squash repeated messages, the shared list they hand elements
 on to, and its pruner. A run is any sequence of messages coming in, pruning and clearing, readers joining
 and leaving, and their flushes cut at each unlocked window.
 */
module ListRuns {
  import opened Bytes
  import opened EntryLayout
  import opened FlatReader
  import opened ListElements
  import opened SimpleBuffer
  import opened ChattyMarks
  import opened ChattySweep
  import opened ChattyPrune
  import D = ChattyDedup

  // ---- What was handed on is in the list or was erased from it ----

  /** Messages the elements of log `id` stand for. */
  function MessagesOf(logs: seq<LogElement>, id: LogId): nat { MessageCount(Select(logs, OfLog(id))) }

  /**
   `told[id]` is what the slots of log `id` handed on and `gone[id]` what was erased: every element in the
   list or erased was handed on and none is both, no message is lost, and a log handed on in order is in order.
   */
  ghost predicate LaidUp(logs: seq<LogElement>, gone: seq<seq<LogElement>>, told: seq<seq<LogElement>>)
    ensures LaidUp(logs, gone, told) ==> |gone| == |told| == LOG_ID_MAX
  {
    && |gone| == |told| == LOG_ID_MAX
    && (forall i :: 0 <= i < |logs| ==> D.Has(told[logs[i].logId], logs[i].sequence))
    && (forall id: LogId :: LaidUpOf(logs, gone[id], told[id], id))
  }

  ghost predicate LaidUpOf(logs: seq<LogElement>, gone: seq<LogElement>, told: seq<LogElement>, id: LogId)
  {
    && D.Told(told) == MessagesOf(logs, id) + MessageCount(gone)
    && (D.Numbered(told) ==> Rising(logs, id)) && Erased(logs, gone, told, id)
  }

  /** Elements of log `id` that were handed on and are out of the list, each only once. */
  ghost predicate Erased(logs: seq<LogElement>, gone: seq<LogElement>, told: seq<LogElement>, id: LogId)
  {
    Unlike(gone) && forall i :: 0 <= i < |gone| ==>
      gone[i].logId == id && D.Has(told, gone[i].sequence) && Absent(logs, gone[i].sequence)
  }

  lemma {:induction false} CountBySelect(logs: seq<LogElement>, p: LogElement -> bool)
    ensures MessageCount(logs) == MessageCount(Select(logs, p)) + MessageCount(Select(logs, Not(p)))
  {
    if logs != [] {
      CountBySelect(logs[1..], p);
      var a, b := Select(logs[1..], p), Select(logs[1..], Not(p));
      assert ([logs[0]] + a)[1..] == a && ([logs[0]] + b)[1..] == b;
    }
  }

  predicate Above(logs: seq<LogElement>, s: nat) { forall i :: 0 <= i < |logs| ==> s < logs[i].sequence }

  lemma NumberedFront(x: LogElement, es: seq<LogElement>)
    ensures D.Numbered([x] + es) <==> D.Numbered(es) && Above(es, x.sequence)
  {
    var r := [x] + es;
    assert r[0] == x && forall i :: 0 <= i < |es| ==> es[i] == r[i + 1];
    assert forall i :: 0 < i < |r| ==> r[i] == es[i - 1];
  }

  lemma RisingFront(logs: seq<LogElement>, id: LogId)
    requires logs != []
    ensures Rising(logs, id) <==> Rising(logs[1..], id) && (logs[0].logId == id ==> Above(Select(logs[1..], OfLog(id)), logs[0].sequence))
  {
    var t, s := logs[1..], Select(logs[1..], OfLog(id));
    SelectMembers(t, OfLog(id));
    hide Select;
    assert forall i :: 0 <= i < |t| ==> t[i] == logs[i + 1];
    assert forall i :: 0 < i < |logs| ==> logs[i] == t[i - 1];
    if Rising(logs, id) && logs[0].logId == id {
      forall k | 0 <= k < |s| ensures logs[0].sequence < s[k].sequence {
        assert s[k] in t;
        var i :| 0 <= i < |t| && t[i] == s[k];
      }
    }
    if logs[0].logId == id && Above(s, logs[0].sequence) {
      forall j | 0 < j < |logs| && logs[j].logId == id ensures logs[0].sequence < logs[j].sequence {
        assert logs[j] in t;
        var k :| 0 <= k < |s| && s[k] == logs[j];
      }
    }
  }

  /** A log is in order in the list exactly if it is in order on its own. */
  lemma {:induction false} RisingSelected(logs: seq<LogElement>, id: LogId)
    ensures Rising(logs, id) <==> D.Numbered(Select(logs, OfLog(id)))
  {
    if logs != [] {
      hide Rising, D.Numbered, Above;
      RisingSelected(logs[1..], id);
      RisingFront(logs, id);
      NumberedFront(logs[0], Select(logs[1..], OfLog(id)));
    }
  }

  /** An element handed on goes to the end of the list. */
  lemma LaidUpAppended(logs: seq<LogElement>, gone: seq<seq<LogElement>>, told: seq<seq<LogElement>>, x: LogElement)
    requires LaidUp(logs, gone, told) && forall id: LogId :: !D.Has(told[id], x.sequence)
    ensures LaidUp(logs + [x], gone, told[x.logId := told[x.logId] + [x]])
  {
    hide Select, MessageCount, D.Told;
    var now, more := logs + [x], told[x.logId := told[x.logId] + [x]];
    D.SnocOrder(told[x.logId], x);
    D.Snoc(told[x.logId], x);
    forall i | 0 <= i < |now| ensures D.Has(more[now[i].logId], now[i].sequence) {
      if i < |logs| { assert D.Has(told[logs[i].logId], logs[i].sequence); }
    }
    forall id: LogId ensures LaidUpOf(now, gone[id], more[id], id) {
      assert LaidUpOf(logs, gone[id], told[id], id);
      SelectConcat(logs, [x], OfLog(id));
      SelectOne(x, OfLog(id));
      if x.logId == id { MessageCountSnoc(Select(logs, OfLog(id)), x); } else { assert Select(now, OfLog(id)) == Select(logs, OfLog(id)); }
      if D.Numbered(more[id]) { RisingAppended(logs, told[id], x, id); }
      ErasedStill(logs, gone[id], told[id], id, x);
    }
  }

  lemma ErasedStill(logs: seq<LogElement>, gone: seq<LogElement>, told: seq<LogElement>, id: LogId, x: LogElement)
    requires Erased(logs, gone, told, id) && !D.Has(told, x.sequence)
    ensures Erased(logs + [x], gone, told, id) && Erased(logs + [x], gone, told + [x], id)
  {
    D.SnocOrder(told, x);
    hide D.Has;
    forall i | 0 <= i < |gone| ensures gone[i].sequence != x.sequence { assert D.Has(told, gone[i].sequence); }
  }

  lemma RisingAppended(logs: seq<LogElement>, told: seq<LogElement>, x: LogElement, id: LogId)
    requires Rising(logs, id) && forall i :: 0 <= i < |logs| && logs[i].logId == id ==> D.Has(told, logs[i].sequence)
    requires x.logId == id ==> D.AllBefore(told, x.sequence)
    ensures Rising(logs + [x], id)
  {
  }

  /** Pruning loses no message and disturbs no order. */
  lemma LaidUpTrimmed(logs0: seq<LogElement>, logs: seq<LogElement>, id: LogId, limit: Option<nat>, erased: seq<LogElement>,
                     gone: seq<seq<LogElement>>, told: seq<seq<LogElement>>)
    requires LaidUp(logs0, gone, told) && Trimmed(logs0, logs, id, limit, erased)
    ensures LaidUp(logs, gone[id := gone[id] + erased], told)
  {
    hide Select, MessageCount, D.Told, D.Numbered, Rising;
    forall i | 0 <= i < |logs| ensures D.Has(told[logs[i].logId], logs[i].sequence) {
      assert StemsFrom(logs0, logs[i]);
    }
    forall b: LogId ensures LaidUpOf(logs, if b == id then gone[id] + erased else gone[b], told[b], b) {
      assert LaidUpOf(logs0, gone[b], told[b], b);
      if b == id {
        ErasedMore(logs0, logs, id, limit, erased, gone[id], told[id]);
        MessageCountConcat(gone[id], erased);
        CountBySelect(logs, OfLog(id));
        CountBySelect(logs0, OfLog(id));
        RestSame(logs0, logs, id, limit);
      } else {
        OtherLogSame(logs0, logs, id, limit, b);
        StillErased(logs0, logs, gone[b], told[b], b);
        RisingSelected(logs0, b);
        RisingSelected(logs, b);
      }
    }
  }

  lemma ErasedMore(logs0: seq<LogElement>, logs: seq<LogElement>, id: LogId, limit: Option<nat>, erased: seq<LogElement>,
                   gone: seq<LogElement>, told: seq<LogElement>)
    requires Trimmed(logs0, logs, id, limit, erased) && Erased(logs0, gone, told, id)
    requires forall i :: 0 <= i < |logs0| && logs0[i].logId == id ==> D.Has(told, logs0[i].sequence)
    ensures Erased(logs, gone + erased, told, id)
  {
    hide Select, MessageCount, D.Has, Rising;
    StillErased(logs0, logs, gone, told, id);
    forall j | 0 <= j < |erased|
      ensures D.Has(told, erased[j].sequence) && forall i :: 0 <= i < |gone| ==> gone[i].sequence != erased[j].sequence
    {
      assert Erasable(logs0, logs, id, limit, erased[j]);
      var k :| 0 <= k < |logs0| && SameSource(logs0[k], erased[j]);
      assert logs0[k].sequence == erased[j].sequence;
    }
  }

  lemma StillErased(logs0: seq<LogElement>, logs: seq<LogElement>, gone: seq<LogElement>, told: seq<LogElement>, id: LogId)
    requires Erased(logs0, gone, told, id) && forall i :: 0 <= i < |logs| ==> StemsFrom(logs0, logs[i])
    ensures Erased(logs, gone, told, id)
  {
    forall i, k | 0 <= i < |gone| && 0 <= k < |logs| ensures logs[k].sequence != gone[i].sequence {
      assert StemsFrom(logs0, logs[k]) && Absent(logs0, gone[i].sequence);
    }
  }

  lemma RestSame(logs0: seq<LogElement>, logs: seq<LogElement>, id: LogId, limit: Option<nat>)
    requires Select(logs, Protected(id, limit)) == Select(logs0, Protected(id, limit))
    ensures Select(logs, Not(OfLog(id))) == Select(logs0, Not(OfLog(id)))
  {
    SelectTwice(logs, Protected(id, limit), Not(OfLog(id)));
    SelectTwice(logs0, Protected(id, limit), Not(OfLog(id)));
  }

  // ---- The buffer ----

  /** Whether and how to prune after an element went to the list. */
  datatype Request = Request(rows: nat, offenders: nat -> Offender, rules: Rules)

  lemma IndexAbsent(logs: seq<LogElement>, s: nat)
    requires Absent(logs, s)
    ensures IndexOf(logs, s) == |logs|
  {
  }

  /** Every message of any log has a number of its own below `next`. */
  ghost predicate Numbers(received: seq<seq<LogElement>>, next: nat)
  {
    && |received| == LOG_ID_MAX
    && (forall id: LogId :: D.AllBefore(received[id], next))
    && (forall a: LogId, b: LogId, s :: a != b && D.Has(received[a], s) ==> !D.Has(received[b], s))
  }

  lemma NumbersNext(received: seq<seq<LogElement>>, e: LogElement)
    requires Numbers(received, e.sequence)
    ensures Numbers(received[e.logId := received[e.logId] + [e]], e.sequence + 1)
  {
    hide D.Has, D.AllBefore;
    D.SnocOrder(received[e.logId], e);
    forall b: LogId ensures D.AllBefore(received[b], e.sequence + 1) && !D.Has(received[b], e.sequence) {
      D.Bounds(received[b], e.sequence);
    }
  }

  lemma NothingYet(next: nat)
    ensures var none := seq(LOG_ID_MAX, i => []); LaidUp([], none, none) && Numbers(none, next)
  {
  }

  class ChattyBuffer {
    const list: ChattyLogBuffer
    const slots: seq<D.Deduplicator>
    ghost var gone: seq<seq<LogElement>>

    ghost predicate SlotsOk()
      reads slots
      ensures SlotsOk() ==> |slots| == LOG_ID_MAX
    {
      && |slots| == LOG_ID_MAX && (forall a, b :: 0 <= a < b < LOG_ID_MAX ==> slots[a] != slots[b])
      && (forall id: LogId :: slots[id].logId == id && slots[id].Valid())
    }

    ghost function Received(): (all: seq<seq<LogElement>>)
      requires |slots| == LOG_ID_MAX
      reads slots
      ensures |all| == LOG_ID_MAX && forall id: LogId :: all[id] == slots[id].received
    {
      seq(LOG_ID_MAX, i requires 0 <= i < LOG_ID_MAX reads slots => slots[i].received)
    }

    ghost function Told(): (told: seq<seq<LogElement>>)
      requires |slots| == LOG_ID_MAX
      reads slots
      ensures |told| == LOG_ID_MAX && forall id: LogId :: told[id] == slots[id].emitted
    {
      seq(LOG_ID_MAX, i requires 0 <= i < LOG_ID_MAX reads slots => slots[i].emitted)
    }

    ghost predicate Valid()
      reads this, slots, list, list.base, list.base.readers
    {
      list.Valid() && SlotsOk() && Numbers(Received(), list.base.sequence) && LaidUp(list.base.logs, gone, Told())
    }

    constructor (list: ChattyLogBuffer, slots: seq<D.Deduplicator>)
      requires list.Valid() && list.base.logs == [] && |slots| == LOG_ID_MAX
      requires forall a, b :: 0 <= a < b < LOG_ID_MAX ==> slots[a] != slots[b]
      requires forall id: LogId :: slots[id].logId == id && slots[id].Valid() && slots[id].received == slots[id].emitted == []
      ensures Valid() && this.list == list && this.slots == slots
    {
      this.list, this.slots := list, slots;
      gone := seq(LOG_ID_MAX, i => []);
      new;
      hide list.Valid, LaidUp, Numbers, D.Deduplicator.Valid;
      NothingYet(list.base.sequence);
      assert Told() == Received() == gone;
    }

    /** Prune, whoever asks for it. */
    method Prune(id: LogId, rows: nat, callerUid: uint32, offenders: nat -> Offender, rules: Rules) returns (ok: bool, ghost o: Outcome)
      requires Valid()
      modifies this`gone, list, list.base`logs, list.base`oldest, list.base`counters
      ensures Valid() && PruneDone(old(list.Now(rows)), list.base.logs, ok, o, id, callerUid, offenders, rules)
      ensures |old(gone)| == LOG_ID_MAX && gone == old(gone)[id := old(gone)[id] + o.gone] && IsLimit(list.base.readers, id, o.limit)
    {
      hide list.Valid, LaidUp, SlotsOk, PruneDone;
      ghost var a, told := list.Now(rows), Told();
      ok, o := list.Prune(id, rows, callerUid, offenders, rules);
      DoneTrims(a, list.base.logs, ok, o, id, callerUid, offenders, rules);
      LaidUpTrimmed(a.logs, list.base.logs, id, o.limit, o.gone, gone, told);
      gone := gone[id := gone[id] + o.gone];
      assert Told() == told;
    }

    lemma DoneTrims(a: Stage, now: seq<LogElement>, ok: bool, o: Outcome, id: LogId, callerUid: uint32, offenders: nat -> Offender, rules: Rules)
      requires PruneDone(a, now, ok, o, id, callerUid, offenders, rules)
      ensures Trimmed(a.logs, now, id, o.limit, o.gone)
    {
    }

    /** From `a` on, an element handed on has gone to the end of the list, and the list was pruned if that was asked for. */
    ghost predicate Added(a: Stage, x: LogElement, request: Option<Request>, now: seq<LogElement>)
      reads list.base`readers, list.base.readers
    {
      if request.None? then now == a.logs + [x]
      else
        var b := Stage(a.logs + [x], a.marks, a.pidMarks, request.value.rows);
        exists ok: bool, o: Outcome ::
          && PruneDone(b, now, ok, o, x.logId, 0, request.value.offenders, request.value.rules) && IsLimit(list.base.readers, x.logId, o.limit)
    }

    /** One after another. */
    ghost predicate AddedAll(stages: seq<Stage>, handed: seq<LogElement>, requests: nat -> Option<Request>)
      reads list.base`readers, list.base.readers
    {
      |stages| == |handed| + 1 && forall k :: 0 <= k < |handed| ==> Added(stages[k], handed[k], requests(k), stages[k + 1].logs)
    }

    /** From `a` on, what slot `id` has handed on since it had handed on n elements has been added. */
    ghost predicate HandedOn(a: Stage, id: LogId, n: nat, requests: nat -> Option<Request>)
      requires |slots| == LOG_ID_MAX
      reads list, list.base, list.base.readers, slots[id]
    {
      n <= |slots[id].emitted| && exists stages ::
        AddedAll(stages, slots[id].emitted[n..], requests) && stages[0] == a && stages[|stages| - 1] == list.Now(0)
    }

    /** From `a` on, with g erased before, the list has been pruned. */
    ghost predicate Pruned(a: Stage, g: seq<seq<LogElement>>, id: LogId, callerUid: uint32, offenders: nat -> Offender, rules: Rules)
      reads this, list.base, list.base.readers
    {
      |g| == LOG_ID_MAX && exists ok: bool, o: Outcome ::
        && PruneDone(a, list.base.logs, ok, o, id, callerUid, offenders, rules)
        && IsLimit(list.base.readers, id, o.limit) && gone == g[id := g[id] + o.gone]
    }

    /** SimpleLogBuffer::LogInternal for an element handed on: append, then prune if the statistics ask for it. */
    method Add(x: LogElement, request: Option<Request>, ghost told: seq<seq<LogElement>>)
      requires list.Valid() && LaidUp(list.base.logs, gone, told)
      requires Packable(x) && x.sequence < list.base.sequence && Absent(list.base.logs, x.sequence)
      requires forall id: LogId :: !D.Has(told[id], x.sequence)
      modifies this`gone, list, list.base`logs, list.base`oldest, list.base`counters
      ensures list.Valid() && LaidUp(list.base.logs, gone, told[x.logId := told[x.logId] + [x]])
      ensures Added(old(list.Now(0)), x, request, list.base.logs)
    {
      hide list.Valid, LaidUp, PruneDone;
      ghost var a := list.Now(0);
      IndexAbsent(list.base.logs, x.sequence);
      LaidUpAppended(list.base.logs, gone, told, x);
      list.Append(x);
      if request.Some? {
        ghost var b := list.Now(request.value.rows);
        assert b == Stage(a.logs + [x], a.marks, a.pidMarks, request.value.rows);
        var ok;
        ghost var o;
        ok, o := list.Prune(x.logId, request.value.rows, 0, request.value.offenders, request.value.rules);
        DoneTrims(b, list.base.logs, ok, o, x.logId, 0, request.value.offenders, request.value.rules);
        LaidUpTrimmed(b.logs, list.base.logs, x.logId, o.limit, o.gone, gone, told[x.logId := told[x.logId] + [x]]);
        gone := gone[x.logId := gone[x.logId] + o.gone];
      }
    }

    /** Two integer events. */
    predicate Summable(id: LogId, msg: seq<byte>)
      requires |slots| == LOG_ID_MAX
      reads slots
    {
      slots[id].last.Some? && |msg| == |slots[id].last.value.msg| == D.EVENT_INT_SIZE
    }

    /** A message that has just got its number. */
    ghost predicate Pending(elem: LogElement)
      reads this, slots, list, list.base, list.base.readers
    {
      && list.Valid() && SlotsOk() && Numbers(Received(), elem.sequence) && LaidUp(list.base.logs, gone, Told())
      && elem.dropped == 0 && Packable(elem) && list.base.sequence == elem.sequence + 1
    }

    /**
     LogInternal: the message goes through the slots of its log, and what they hand on goes to the list, each
     element followed by pruning if the statistics ask for it.
     */
    method LogInternal(elem: LogElement, matched: D.Match, requests: nat -> Option<Request>) returns (ghost stages: seq<Stage>)
      requires Pending(elem) && |slots| == LOG_ID_MAX
      requires matched == D.SameLiblog && slots[elem.logId].last.Some? ==> Summable(elem.logId, elem.msg)
      modifies this`gone, slots[elem.logId], list, list.base`logs, list.base`oldest, list.base`counters
      ensures Valid() && slots[elem.logId].received == old(slots[elem.logId].received) + [elem]
      ensures slots[elem.logId].matches == old(slots[elem.logId].matches) + [matched]
      ensures slots[elem.logId].emitted == old(slots[elem.logId].emitted) + old(slots[elem.logId].Handed(elem, matched))
      ensures AddedAll(stages, old(slots[elem.logId].Handed(elem, matched)), requests)
      ensures stages[0] == old(list.Now(0)) && stages[|stages| - 1] == list.Now(0)
      ensures elem.logId != LOG_ID_SECURITY && matched != D.SameLiblog ==> slots[elem.logId].last == Some(elem)
      ensures elem.logId != LOG_ID_SECURITY && matched == D.Same && old(slots[elem.logId].last.Some? && slots[elem.logId].duplicate.None?) ==>
        slots[elem.logId].duplicate == old(slots[elem.logId].last)
      ensures elem.logId != LOG_ID_SECURITY && matched == D.Different ==> slots[elem.logId].duplicate == None
    {
      hide list.Valid, LaidUp, SlotsOk, Numbers, D.Deduplicator.Handed, D.Deduplicator.Valid, Packable, Summable;
      ghost var told := Told();
      var handed := SquashRepeats(elem, matched);
      stages := HandOn(elem.logId, handed, requests, told);
    }

    /** A message that is let through: numbered under the lock; only two integer events compare as such. */
    method Log(id: LogId, uid: uint32, pid: nat, tid: nat, realtime: nat, tag: int, msg: seq<byte>, compared: D.Match, requests: nat -> Option<Request>)
      requires Valid() && 0 < |msg| < 0x1_0000 - LIST_OVERHEAD && pid < 0x1_0000 && tid < 0x1_0000
      modifies this`gone, slots[id], list, list.base`logs, list.base`oldest, list.base`counters, list.base`sequence
      ensures Valid() && list.base.sequence == old(list.base.sequence) + 1
      ensures var time := if realtime % 1000 == 0 then realtime + 1 else realtime;
        slots[id].received == old(slots[id].received) + [LogElement(id, uid, pid, tid, old(list.base.sequence), time, tag, msg, 0)]
      ensures slots[id].matches == old(slots[id].matches) +
        [if compared == D.SameLiblog && old(slots[id].last.Some? && !Summable(id, msg)) then D.Different else compared]
      ensures HandedOn(old(list.Now(0)), id, |old(slots[id].emitted)|, requests)
    {
      hide list.Valid, LaidUp, SlotsOk, Numbers;
      var time := if realtime % 1000 == 0 then realtime + 1 else realtime;
      var elem := LogElement(id, uid, pid, tid, list.base.sequence, time, tag, msg, 0);
      var matched := if compared == D.SameLiblog && slots[id].last.Some? && !Summable(id, msg) then D.Different else compared;
      NextNumber();
      ghost var n := |slots[id].emitted|;
      ghost var stages := LogInternal(elem, matched, requests);
      assert slots[id].emitted[n..] == old(slots[id].Handed(elem, matched));
    }

    /** sequence_.fetch_add(1) */
    method NextNumber()
      requires list.Valid()
      modifies list.base`sequence
      ensures list.Valid() && list.base.sequence == old(list.base.sequence) + 1
    {
      hide Counted, Proper, OldestOk, AllMarksOk;
      list.base.sequence := list.base.sequence + 1;
      forall r | r in list.base.readers ensures list.base.WindowOk(r) { assert old(list.base.WindowOk(r)); }
    }

    /** The newest message goes through the slots of its log. */
    method SquashRepeats(elem: LogElement, matched: D.Match) returns (handed: seq<LogElement>)
      requires SlotsOk() && elem.dropped == 0 && Packable(elem) && list.base.sequence == elem.sequence + 1
      requires Numbers(Received(), elem.sequence)
      requires matched == D.SameLiblog && slots[elem.logId].last.Some? ==> Summable(elem.logId, elem.msg)
      modifies slots[elem.logId]
      ensures SlotsOk() && Numbers(Received(), list.base.sequence) && slots[elem.logId].emitted == old(slots[elem.logId].emitted) + handed
      ensures slots[elem.logId].received == old(slots[elem.logId].received) + [elem]
      ensures slots[elem.logId].matches == old(slots[elem.logId].matches) + [matched]
      ensures Told() == old(Told())[elem.logId := old(Told())[elem.logId] + handed]
      ensures handed == old(slots[elem.logId].Handed(elem, matched))
      ensures elem.logId != LOG_ID_SECURITY && matched != D.SameLiblog ==> slots[elem.logId].last == Some(elem)
      ensures elem.logId != LOG_ID_SECURITY && matched == D.Same && old(slots[elem.logId].last.Some? && slots[elem.logId].duplicate.None?) ==>
        slots[elem.logId].duplicate == old(slots[elem.logId].last)
      ensures elem.logId != LOG_ID_SECURITY && matched == D.Different ==> slots[elem.logId].duplicate == None
    {
      hide D.Has, D.AllBefore, D.Deduplicator.Valid;
      ghost var all, told := Received(), Told();
      var id := elem.logId;
      NumbersNext(all, elem);
      assert D.AllBefore(all[id], elem.sequence);
      hide Numbers;
      assert forall b: LogId :: b != id ==> slots[b] != slots[id];
      handed := slots[id].LogInternal(elem, matched);
      forall b: LogId ensures slots[b].Valid() && slots[b].logId == b {
        if b != id { assert old(slots[b].Valid()); }
      }
      assert Received() == all[id := all[id] + [elem]];
      assert Told() == told[id := told[id] + handed];
    }

    /** What the slots hand on goes to the list, one by one. */
    method HandOn(id: LogId, handed: seq<LogElement>, requests: nat -> Option<Request>, ghost told: seq<seq<LogElement>>) returns (ghost stages: seq<Stage>)
      requires list.Valid() && SlotsOk() && Numbers(Received(), list.base.sequence) && LaidUp(list.base.logs, gone, told)
      requires Told() == told[id := told[id] + handed]
      modifies this`gone, list, list.base`logs, list.base`oldest, list.base`counters
      ensures list.Valid() && LaidUp(list.base.logs, gone, Told())
      ensures AddedAll(stages, handed, requests) && stages[0] == old(list.Now(0)) && stages[|stages| - 1] == list.Now(0)
    {
      hide list.Valid, LaidUp, SlotsOk, Numbers, Added;
      assert told[id] + handed[..0] == told[id] && told[id := told[id]] == told;
      stages := [list.Now(0)];
      for k := 0 to |handed|
        invariant list.Valid() && LaidUp(list.base.logs, gone, told[id := told[id] + handed[..k]])
        invariant |stages| == k + 1 && stages[0] == old(list.Now(0)) && stages[k] == list.Now(0)
        invariant forall i :: 0 <= i < k ==> Added(stages[i], handed[i], requests(i), stages[i + 1].logs)
      {
        Fresh(id, told, handed, k);
        assert handed[..k + 1] == handed[..k] + [handed[k]];
        ghost var sofar := told[id := told[id] + handed[..k]];
        Add(handed[k], requests(k), sofar);
        stages := stages + [list.Now(0)];
        assert sofar[id] + [handed[k]] == told[id] + handed[..k + 1];
        assert sofar[id := sofar[id] + [handed[k]]] == told[id := told[id] + handed[..k + 1]];
      }
      assert handed[..|handed|] == handed;
    }

    /** The next element to go to the list is well-formed and has a number nothing there has. */
    lemma Fresh(id: LogId, told: seq<seq<LogElement>>, handed: seq<LogElement>, k: nat)
      requires SlotsOk() && Numbers(Received(), list.base.sequence) && k < |handed| && |told| == LOG_ID_MAX
      requires Told() == told[id := told[id] + handed]
      requires LaidUp(list.base.logs, gone, told[id := told[id] + handed[..k]])
      ensures handed[k].logId == id && Packable(handed[k]) && handed[k].sequence < list.base.sequence && Absent(list.base.logs, handed[k].sequence)
      ensures forall b: LogId :: !D.Has(if b == id then told[id] + handed[..k] else told[b], handed[k].sequence)
    {
      var d, x, before := slots[id], handed[k], told[id] + handed[..k];
      var n := |told[id]| + k;
      assert d.emitted[n] == x && d.Valid();
      assert before == d.emitted[..n];
      assert D.Has(d.emitted, x.sequence) && D.Has(d.received, x.sequence);
      assert !D.Has(before, x.sequence);
      forall b: LogId | b != id ensures !D.Has(told[b], x.sequence) { assert slots[b].Valid(); }
      forall i | 0 <= i < |list.base.logs| ensures list.base.logs[i].sequence != x.sequence {
        var b := list.base.logs[i].logId;
        assert D.Has(if b == id then before else told[b], list.base.logs[i].sequence);
      }
    }
  }

  // ---- Runs ----

  /** One lock-protected step. */
  datatype Step =
    | Log(id: LogId, uid: uint32, pid: nat, tid: nat, realtime: nat, tag: int, msg: seq<byte>, compared: D.Match, requests: nat -> Option<Request>)
    | Prune(id: LogId, rows: nat, callerUid: uint32, offenders: nat -> Offender, rules: Rules)
    | Join(start: nat, mask: set<LogId>, writer: Writer, wrapped: bool)
    | Leave(reader: nat)
    | Flush(reader: nat, filter: LogElement -> FilterResult)

  predicate Loggable(s: Step) { s.Log? ==> 0 < |s.msg| < 0x1_0000 - LIST_OVERHEAD && s.pid < 0x1_0000 && s.tid < 0x1_0000 }

  /** The message that comes in, with its number and its time moved off whole microseconds. */
  function Arrived(s: Step, sequence: nat): LogElement
    requires s.Log?
  {
    LogElement(s.id, s.uid, s.pid, s.tid, sequence, if s.realtime % 1000 == 0 then s.realtime + 1 else s.realtime, s.tag, s.msg, 0)
  }

  /** How many messages of log `id` come in. */
  function Incoming(steps: seq<Step>, id: LogId): nat
  {
    if steps == [] then 0
    else Incoming(steps[..|steps| - 1], id) + if steps[|steps| - 1].Log? && steps[|steps| - 1].id == id then 1 else 0
  }

  /** Between two steps, the element a reader is writing without the lock is in the list exactly as it was taken. */
  lemma WindowIsSafe(c: ChattyLogBuffer, r: LogReader)
    requires c.Valid() && r in c.base.readers && r.writing.Some?
    ensures r.writing.value in c.base.logs && r.start == r.writing.value.sequence
    ensures forall e :: e in c.base.logs && e.sequence == r.start ==> e == r.writing.value
  {
    assert c.base.WindowOk(r);
    var w := r.writing.value;
    var i :| 0 <= i < |c.base.logs| && c.base.logs[i] == w;
    forall e | e in c.base.logs && e.sequence == r.start ensures e == w {
      var j :| 0 <= j < |c.base.logs| && c.base.logs[j] == e;
      assert i == j;
    }
  }

  /**
   What can be relied on between two steps about one log: every message that came in is in the list, behind a
   chatty count in the list, was erased by pruning, is held back, or was added to another; the log is in the
   list in order unless a sum overflowed over a count that then had to go.
   */
  lemma Guarantees(b: ChattyBuffer, id: LogId)
    requires b.Valid()
    ensures |b.gone| == LOG_ID_MAX && |b.slots| == LOG_ID_MAX && |b.slots[id].matches| == |b.slots[id].received|
    ensures |b.slots[id].received| ==
      MessagesOf(b.list.base.logs, id) + MessageCount(b.gone[id]) + b.slots[id].Held() + D.CourseOf(b.slots[id].received, b.slots[id].matches).summed
    ensures Erased(b.list.base.logs, b.gone[id], b.slots[id].emitted, id)
    ensures forall s :: D.Has(b.slots[id].emitted, s) ==> D.Has(b.slots[id].received, s)
    ensures id != LOG_ID_SECURITY && !D.Breaks(b.slots[id].received, b.slots[id].matches) ==> Rising(b.list.base.logs, id)
    ensures id == LOG_ID_SECURITY ==> Rising(b.list.base.logs, id)
    ensures |b.list.base.counters| == LOG_ID_MAX && Counted(b.list.base.counters[id], b.list.base.logs, id, b.list.base.trackTotal)
  {
    hide D.CourseOf, D.Breaks, Rising, D.Told, Select, MessageCount;
    var d := b.slots[id];
    assert d.Valid() && LaidUpOf(b.list.base.logs, b.gone[id], b.Told()[id], id);
    if id != LOG_ID_SECURITY {
      AllOfOneLog(d);
      D.BrokenIff(d.received, d.matches);
    }
  }

  lemma AllOfOneLog(d: D.Deduplicator)
    requires d.Valid() && d.logId != LOG_ID_SECURITY
    ensures D.Squashable(d.received)
  {
  }

  /** Every run from an empty buffer keeps all of that for every log, and every element being written out in place. */
  method Run(trackTotal: bool, steps: seq<Step>) returns (b: ChattyBuffer)
    requires forall i :: 0 <= i < |steps| ==> Loggable(steps[i])
    ensures b.Valid() && |b.slots| == |b.gone| == LOG_ID_MAX
    ensures forall id: LogId :: Incoming(steps, id) == |b.slots[id].received|
    ensures forall r :: r in b.list.base.readers && r.writing.Some? ==> r.writing.value in b.list.base.logs
  {
    hide b.Valid, b.HandedOn, b.Pruned;
    b := Empty(trackTotal);
    for k := 0 to |steps|
      invariant b.Valid() && fresh(b) && fresh(b.list) && fresh(b.list.base) && |b.slots| == LOG_ID_MAX
      invariant forall id: LogId :: fresh(b.slots[id])
      invariant forall i :: 0 <= i < |b.list.base.readers| ==> fresh(b.list.base.readers[i])
      invariant forall id: LogId :: Incoming(steps[..k], id) == |b.slots[id].received|
    {
      assert steps[..k + 1][..k] == steps[..k];
      Perform(b, steps[k]);
    }
    assert steps[..|steps|] == steps;
    ValidSlots(b);
    forall r | r in b.list.base.readers ensures r.writing.Some? ==> r.writing.value in b.list.base.logs {
      ValidList(b);
      if r.writing.Some? { WindowIsSafe(b.list, r); }
    }
  }

  lemma ValidList(b: ChattyBuffer)
    requires b.Valid()
    ensures b.list.Valid()
  {
  }

  lemma ValidSlots(b: ChattyBuffer)
    requires b.Valid()
    ensures |b.slots| == |b.gone| == LOG_ID_MAX
  {
  }

  method Empty(trackTotal: bool) returns (b: ChattyBuffer)
    ensures b.Valid() && fresh(b) && fresh(b.list) && fresh(b.list.base) && b.list.base.readers == [] && b.list.base.logs == []
    ensures b.list.base.sequence == 1 && |b.slots| == LOG_ID_MAX
    ensures forall id: LogId :: fresh(b.slots[id]) && b.slots[id].received == [] && b.slots[id].last == b.slots[id].duplicate == None
    ensures forall id: LogId :: b.slots[id].logId == id
  {
    hide D.Deduplicator.Valid, LaidUp, Numbers;
    var base := new SimpleLogBuffer(trackTotal);
    var list := new ChattyLogBuffer(base);
    var slots: seq<D.Deduplicator> := [];
    for i := 0 to LOG_ID_MAX
      invariant |slots| == i && (forall k :: 0 <= k < i ==> fresh(slots[k])) && (forall a, c :: 0 <= a < c < i ==> slots[a] != slots[c])
      invariant forall k :: 0 <= k < i ==> slots[k].logId == k && slots[k].Valid() && slots[k].received == slots[k].emitted == []
      invariant forall k :: 0 <= k < i ==> slots[k].last == slots[k].duplicate == None
      invariant list.Valid() && base.logs == [] && base.readers == [] && base.sequence == 1
    {
      var d := new D.Deduplicator(i, trackTotal);
      slots := slots + [d];
    }
    b := new ChattyBuffer(list, slots);
  }

  method Perform(b: ChattyBuffer, step: Step)
    requires b.Valid() && Loggable(step) && |b.slots| == LOG_ID_MAX
    modifies b, b.slots, b.list, b.list.base, b.list.base.readers
    ensures b.Valid()
    ensures forall i :: 0 <= i < |b.list.base.readers| ==> b.list.base.readers[i] in old(b.list.base.readers) || fresh(b.list.base.readers[i])
    ensures b.list.base.sequence == old(b.list.base.sequence) + if step.Log? then 1 else 0
    ensures forall id: LogId ::
      b.slots[id].received == old(b.slots[id].received) + if step.Log? && step.id == id then [Arrived(step, old(b.list.base.sequence))] else []
    ensures step.Log? ==> b.HandedOn(old(b.list.Now(0)), step.id, old(|b.slots[step.id].emitted|), step.requests)
    ensures step.Prune? ==> b.Pruned(old(b.list.Now(step.rows)), old(b.gone), step.id, step.callerUid, step.offenders, step.rules)
    ensures !step.Log? && !step.Prune? ==> b.list.Now(0) == old(b.list.Now(0)) && b.gone == old(b.gone)
    ensures !step.Join? && !step.Leave? ==> b.list.base.readers == old(b.list.base.readers)
    ensures step.Join? ==> |b.list.base.readers| == |old(b.list.base.readers)| + 1 && b.list.base.readers[..|old(b.list.base.readers)|] == old(b.list.base.readers)
    ensures step.Join? ==>
      var r := b.list.base.readers[|old(b.list.base.readers)|];
      r.start == step.start && r.mask == step.mask && r.writer == step.writer && r.wrapped == step.wrapped && r.writing == None && r.dropChatty
    ensures step.Leave? ==>
      var k, was := step.reader, old(b.list.base.readers);
      b.list.base.readers == if k < |was| then was[..k] + was[k + 1..] else was
  {
    hide D.Deduplicator.Valid, LaidUp, Numbers, b.list.Valid, b.SlotsOk, b.HandedOn, PruneDone;
    match step {
      case Log(id, uid, pid, tid, realtime, tag, msg, compared, requests) =>
        SlotsApart(b);
        b.Log(id, uid, pid, tid, realtime, tag, msg, compared, requests);
      case Prune(id, rows, uid, offenders, rules) =>
        ghost var o;
        var ok;
        ok, o := b.Prune(id, rows, uid, offenders, rules);
      case Join(start, mask, writer, wrapped) =>
        var r := new LogReader(start, mask, writer, wrapped);
        Join(b, r);
      case Leave(k) =>
        if k < |b.list.base.readers| {
          Leave(b, k);
        }
      case Flush(k, filter) =>
        if k < |b.list.base.readers| {
          var _ := Flush(b, b.list.base.readers[k], filter);
        }
    }
  }

  lemma SlotsApart(b: ChattyBuffer)
    requires b.Valid()
    ensures |b.slots| == LOG_ID_MAX && forall a, c :: 0 <= a < c < LOG_ID_MAX ==> b.slots[a] != b.slots[c]
  {
  }

  method Join(b: ChattyBuffer, r: LogReader)
    requires b.Valid() && r.writing.None? && r !in b.list.base.readers
    modifies b.list.base`readers
    ensures b.Valid() && b.list.base.readers == old(b.list.base.readers) + [r]
  {
    hide b.SlotsOk, LaidUp, Numbers, AllMarksOk, b.list.base.ListOk;
    b.list.base.AddReader(r);
  }

  method Leave(b: ChattyBuffer, k: nat)
    requires b.Valid() && k < |b.list.base.readers|
    modifies b.list.base`readers
    ensures b.Valid() && b.list.base.readers == old(b.list.base.readers)[..k] + old(b.list.base.readers)[k + 1..]
  {
    hide b.SlotsOk, LaidUp, Numbers, AllMarksOk, b.list.base.ListOk;
    b.list.base.RemoveReader(k);
  }

  method Flush(b: ChattyBuffer, r: LogReader, filter: LogElement -> FilterResult) returns (out: Option<LogElement>)
    requires b.Valid() && r in b.list.base.readers
    modifies r
    ensures b.Valid()
    ensures old(r.writing.None?) && old(StartIndex(b.list.base.logs, r.start)) + 1 == |b.list.base.logs| ==>
      var e := b.list.base.logs[|b.list.base.logs| - 1];
      (out == if old(r.Sends(e, filter)) then Some(e) else None) && (out.Some? ==> r.start == e.sequence)
  {
    hide b.SlotsOk, LaidUp, Numbers, AllMarksOk, b.list.base.ListOk;
    var o, _ := b.list.base.FlushTo(r, filter);
    out := o;
  }

  // ---- The list is not in order over all logs ----

  /** A plain message of log `id`. */
  function Plain(id: LogId, s: nat, text: byte): LogElement { LogElement(id, 0, 0, 0, s, 1, 0, [text], 0) }

  /** LogInternal of a plain message after it got its number, with no pruning. */
  method LogPlain(b: ChattyBuffer, id: LogId, text: byte, matched: D.Match)
    requires b.Valid() && id != LOG_ID_SECURITY && matched != D.SameLiblog && |b.slots| == LOG_ID_MAX
    modifies b`gone, b.slots[id], b.list, b.list.base`logs, b.list.base`oldest, b.list.base`counters, b.list.base`sequence
    ensures b.Valid() && b.list.base.sequence == old(b.list.base.sequence) + 1
    ensures b.list.base.logs == old(b.list.base.logs) + old(b.slots[id].Handed(Plain(id, b.list.base.sequence, text), matched))
    ensures b.slots[id].last == Some(Plain(id, old(b.list.base.sequence), text))
    ensures matched == D.Same && old(b.slots[id].last.Some? && b.slots[id].duplicate.None?) ==> b.slots[id].duplicate == old(b.slots[id].last)
    ensures matched == D.Different ==> b.slots[id].duplicate == None
  {
    hide b.list.Valid, LaidUp, b.SlotsOk, Numbers, D.Deduplicator.Handed;
    var elem := Plain(id, b.list.base.sequence, text);
    b.NextNumber();
    ghost var stages := b.LogInternal(elem, matched, k => None);
    ghost var handed := old(b.slots[id].Handed(Plain(id, b.list.base.sequence, text), matched));
    AllAppended(b, stages, handed, |handed|);
    assert handed[..|handed|] == handed;
  }

  /** With no pruning asked for, what is handed on is appended. */
  lemma {:induction false} AllAppended(b: ChattyBuffer, stages: seq<Stage>, handed: seq<LogElement>, n: nat)
    requires b.AddedAll(stages, handed, k => None) && n <= |handed|
    ensures stages[n].logs == stages[0].logs + handed[..n]
  {
    if n > 0 {
      AllAppended(b, stages, handed, n - 1);
      assert handed[..n] == handed[..n - 1] + [handed[n - 1]];
      assert b.Added(stages[n - 1], handed[n - 1], None, stages[n].logs);
    }
  }

  const MIXED := [Plain(0, 1, 65), Plain(1, 3, 66), Plain(0, 2, 65), Plain(0, 4, 67)]

  /** A message held back is handed on after a newer one of another log. */
  method HoldBack() returns (b: ChattyBuffer)
    ensures b.Valid() && fresh(b) && fresh(b.list) && fresh(b.list.base) && b.list.base.readers == [] && b.list.base.logs == MIXED
  {
    hide b.list.Valid, LaidUp, b.SlotsOk, Numbers, b.Valid, Plain;
    b := Empty(true);
    SlotsApart(b);
    LogPlain(b, 0, 65, D.Different);
    assert b.list.base.logs == [Plain(0, 1, 65)];
    LogPlain(b, 0, 65, D.Same);
    assert b.list.base.logs == [Plain(0, 1, 65)] && b.slots[0].duplicate == Some(Plain(0, 1, 65));
    LogPlain(b, 1, 66, D.Different);
    assert b.list.base.logs == [Plain(0, 1, 65), Plain(1, 3, 66)];
    assert Plain(0, 1, 65).dropped == 0 by { PlainIs(); }
    LogPlain(b, 0, 67, D.Different);
  }

  lemma PlainIs()
    ensures Plain(0, 1, 65).dropped == 0
  {
  }

  /** The search for start number 3 ends behind element 2, so a reader that starts there is never sent element 3. */
  method HeldBackMessageHides() returns (b: ChattyBuffer, r: LogReader, out: Option<LogElement>)
    ensures b.Valid() && r in b.list.base.readers && b.list.base.logs == MIXED
    ensures MIXED[1].sequence == 3 && out == Some(MIXED[3]) && r.start == 4
  {
    hide b.list.Valid, LaidUp, b.SlotsOk, Numbers, b.Valid;
    b := HoldBack();
    r := new LogReader(3, {0, 1}, Writer(0, true), false);
    Join(b, r);
    SearchMisses();
    out := Flush(b, r, e => Write);
  }

  lemma SearchMisses()
    ensures StartIndex(MIXED, 3) == 3
  {
  }
}
