/**
 The shared list of the Simple and Chatty buffers as a value: selecting, removing and replacing
 elements, and the statistics that belong to it.

 A list iterator is named by the sequence number of the element it refers to, which stays the same
 however the list changes around that element.
 */
module ListElements {
  import opened Bytes
  import opened EntryLayout
  import opened FlatReader
  import S = LogStats

  const LIST_OVERHEAD := 56   // a LogBufferElement and two list pointers, rounded up to 8 bytes
  const USHRT_MAX := 0xFFFF

  /** `dropped` is 0 for a message; a chatty element has no message and stands for `dropped` of them. */
  datatype LogElement = LogElement(logId: LogId, uid: uint32, pid: nat, tid: nat, sequence: nat, realtime: nat, tag: int,
                                   msg: seq<byte>, dropped: nat)

  /** A message is not empty, and its size in the list fits 16 bits. */
  predicate WellFormed(e: LogElement)
  {
    e.dropped <= USHRT_MAX && if e.dropped == 0 then 0 < |e.msg| < 0x1_0000 - LIST_OVERHEAD else e.msg == []
  }

  /** The Chatty buffer packs pid and tid into 16 bits each. */
  predicate Narrow(e: LogElement) { e.pid < 0x1_0000 && e.tid < 0x1_0000 }
  predicate Packable(e: LogElement) { WellFormed(e) && Narrow(e) }

  function SetDropped(e: LogElement, n: nat): LogElement { e.(msg := [], dropped := n) }

  /** How many messages the element stands for. */
  function Messages(e: LogElement): nat { if e.dropped == 0 then 1 else e.dropped }

  function Tally(e: LogElement, trackTotal: bool): S.Element
  {
    S.Element(e.uid, e.pid, if trackTotal then LIST_OVERHEAD + |e.msg| else |e.msg|, |e.msg|, e.dropped)
  }

  /** No two elements have the same number. */
  predicate Unlike(es: seq<LogElement>) { forall i, j :: 0 <= i < j < |es| ==> es[i].sequence != es[j].sequence }

  /** No two elements have the same number, and every element is well-formed. */
  predicate Proper(logs: seq<LogElement>)
  {
    && Unlike(logs)
    && (forall i :: 0 <= i < |logs| ==> WellFormed(logs[i]))
  }

  // ---- Selecting ----

  function Select(logs: seq<LogElement>, p: LogElement -> bool): (r: seq<LogElement>)
    ensures |r| <= |logs|
  {
    if logs == [] then [] else if p(logs[0]) then [logs[0]] + Select(logs[1..], p) else Select(logs[1..], p)
  }

  function Not(p: LogElement -> bool): LogElement -> bool { e => !p(e) }
  function OfLog(id: LogId): LogElement -> bool { (e: LogElement) => e.logId == id }

  lemma {:induction false} SelectConcat(a: seq<LogElement>, b: seq<LogElement>, p: LogElement -> bool)
    ensures Select(a + b, p) == Select(a, p) + Select(b, p)
  {
    if a == [] {
      assert a + b == b;
    } else {
      assert (a + b)[1..] == a[1..] + b;
      SelectConcat(a[1..], b, p);
    }
  }

  lemma SelectOne(e: LogElement, p: LogElement -> bool)
    ensures Select([e], p) == if p(e) then [e] else []
  {
    assert [e][1..] == [];
  }

  lemma SelectMid(a: seq<LogElement>, e: LogElement, b: seq<LogElement>, p: LogElement -> bool)
    ensures Select(a + [e] + b, p) == Select(a, p) + (if p(e) then [e] else []) + Select(b, p)
  {
    SelectConcat(a + [e], b, p);
    SelectConcat(a, [e], p);
    SelectOne(e, p);
  }

  lemma {:induction false} SelectNone(logs: seq<LogElement>, p: LogElement -> bool)
    requires forall i :: 0 <= i < |logs| ==> !p(logs[i])
    ensures Select(logs, p) == []
  {
    if logs != [] { SelectNone(logs[1..], p); }
  }

  lemma {:induction false} SelectMembers(logs: seq<LogElement>, p: LogElement -> bool)
    ensures forall e :: e in Select(logs, p) <==> e in logs && p(e)
  {
    if logs != [] {
      SelectMembers(logs[1..], p);
      assert logs == [logs[0]] + logs[1..];
    }
  }

  // ---- Removing and replacing ----

  function RemoveAt(logs: seq<LogElement>, i: nat): (r: seq<LogElement>)
    requires i < |logs|
    ensures |r| == |logs| - 1
  {
    logs[..i] + logs[i + 1..]
  }

  lemma SplitAtIndex(logs: seq<LogElement>, i: nat)
    requires i < |logs|
    ensures logs == logs[..i] + [logs[i]] + logs[i + 1..]
  {
  }

  lemma RemoveSelected(logs: seq<LogElement>, i: nat, p: LogElement -> bool)
    requires i < |logs| && !p(logs[i])
    ensures Select(RemoveAt(logs, i), p) == Select(logs, p)
  {
    SplitAtIndex(logs, i);
    SelectMid(logs[..i], logs[i], logs[i + 1..], p);
    SelectConcat(logs[..i], logs[i + 1..], p);
  }

  lemma ReplaceSelected(logs: seq<LogElement>, i: nat, e: LogElement, p: LogElement -> bool)
    requires i < |logs| && !p(logs[i]) && !p(e)
    ensures Select(logs[i := e], p) == Select(logs, p)
  {
    SplitAtIndex(logs, i);
    SelectMid(logs[..i], logs[i], logs[i + 1..], p);
    assert logs[i := e] == logs[..i] + [e] + logs[i + 1..];
    SelectMid(logs[..i], e, logs[i + 1..], p);
  }

  lemma RemoveProper(logs: seq<LogElement>, i: nat)
    requires Proper(logs) && i < |logs|
    ensures Proper(RemoveAt(logs, i))
    ensures forall e :: e in RemoveAt(logs, i) <==> e in logs && e != logs[i]
  {
    var r := RemoveAt(logs, i);
    assert forall k :: 0 <= k < |r| ==> r[k] == logs[if k < i then k else k + 1];
    forall e | e in logs && e != logs[i] ensures e in r {
      var k :| 0 <= k < |logs| && logs[k] == e;
      assert r[if k < i then k else k - 1] == e;
    }
  }

  /** Removes the first n elements that satisfy p. */
  function DropFirst(logs: seq<LogElement>, p: LogElement -> bool, n: nat): seq<LogElement>
  {
    if logs == [] || n == 0 then logs
    else if p(logs[0]) then DropFirst(logs[1..], p, n - 1)
    else [logs[0]] + DropFirst(logs[1..], p, n)
  }

  /** Removing every match among the first m elements is removing that many first matches. */
  lemma {:induction false} DropFirstPrefix(logs: seq<LogElement>, p: LogElement -> bool, m: nat)
    requires m <= |logs|
    ensures DropFirst(logs, p, |Select(logs[..m], p)|) == Select(logs[..m], Not(p)) + logs[m..]
    decreases m
  {
    if m == 0 {
      assert logs[..0] == [] && logs[0..] == logs;
    } else {
      var t := logs[1..];
      assert logs[..m][1..] == t[..m - 1] && t[m - 1..] == logs[m..];
      DropFirstPrefix(t, p, m - 1);
      if !p(logs[0]) && |Select(logs[..m], p)| == 0 {
        DropNothing(t, p, m - 1);
        assert [logs[0]] + t == logs;
        assert logs == Select(logs[..m], Not(p)) + logs[m..];
      }
    }
  }

  lemma DropNothing(logs: seq<LogElement>, p: LogElement -> bool, m: nat)
    requires m <= |logs| && |Select(logs[..m], p)| == 0
    requires DropFirst(logs, p, 0) == Select(logs[..m], Not(p)) + logs[m..]
    ensures logs == Select(logs[..m], Not(p)) + logs[m..]
  {
  }

  /** What is not pruned: the elements that do not match, and the matching ones after the first n. */
  lemma {:induction false} DropFirstKeeps(logs: seq<LogElement>, p: LogElement -> bool, n: nat)
    ensures Select(DropFirst(logs, p, n), Not(p)) == Select(logs, Not(p))
    ensures var s := Select(logs, p); Select(DropFirst(logs, p, n), p) == if n <= |s| then s[n..] else []
  {
    if logs != [] && n > 0 {
      DropFirstKeeps(logs[1..], p, if p(logs[0]) then n - 1 else n);
      if !p(logs[0]) {
        var r := DropFirst(logs[1..], p, n);
        assert ([logs[0]] + r)[1..] == r;
      }
    }
  }

  // ---- Readers' limits ----

  /** How many of the matching elements come before the first one a reader still needs. */
  function Free(matching: seq<LogElement>, limit: Option<nat>): (n: nat)
    ensures n <= |matching|
  {
    if matching == [] || Needed(matching[0], limit) then 0 else 1 + Free(matching[1..], limit)
  }

  predicate Needed(e: LogElement, limit: Option<nat>) { limit.Some? && limit.value <= e.sequence }

  lemma {:induction false} FreePrefix(a: seq<LogElement>, b: seq<LogElement>, limit: Option<nat>)
    requires forall i :: 0 <= i < |a| ==> !Needed(a[i], limit)
    ensures Free(a + b, limit) == |a| + Free(b, limit)
  {
    if a == [] {
      assert a + b == b;
    } else {
      assert (a + b)[1..] == a[1..] + b;
      FreePrefix(a[1..], b, limit);
    }
  }

  // ---- Statistics ----

  function Tallies(es: seq<LogElement>, trackTotal: bool): (r: seq<S.Element>)
    ensures |r| == |es| && forall i :: 0 <= i < |es| ==> r[i] == Tally(es[i], trackTotal)
  {
    seq(|es|, i requires 0 <= i < |es| => Tally(es[i], trackTotal))
  }

  /** The counters of log `id` agree with its elements in the list. */
  ghost predicate Counted(c: S.Counters, logs: seq<LogElement>, id: LogId, trackTotal: bool)
  {
    S.Agrees(c, Tallies(Select(logs, OfLog(id)), trackTotal), id == LOG_ID_KERNEL)
  }

  lemma TalliesMid(a: seq<LogElement>, e: LogElement, b: seq<LogElement>, trackTotal: bool)
    ensures Tallies(a + [e] + b, trackTotal) == Tallies(a, trackTotal) + [Tally(e, trackTotal)] + Tallies(b, trackTotal)
  {
  }

  lemma TalliesConcat(a: seq<LogElement>, b: seq<LogElement>, trackTotal: bool)
    ensures Tallies(a + b, trackTotal) == Tallies(a, trackTotal) + Tallies(b, trackTotal)
  {
  }

  lemma AllCountable(es: seq<LogElement>, trackTotal: bool)
    requires forall i :: 0 <= i < |es| ==> WellFormed(es[i])
    ensures S.AllCountable(Tallies(es, trackTotal))
  {
  }

  lemma SelectWellFormed(logs: seq<LogElement>, p: LogElement -> bool)
    requires Proper(logs)
    ensures forall i :: 0 <= i < |Select(logs, p)| ==> WellFormed(Select(logs, p)[i])
  {
    SelectMembers(logs, p);
    var r := Select(logs, p);
    forall i | 0 <= i < |r| ensures WellFormed(r[i]) { assert r[i] in logs; }
  }

  /** Counting an appended element in. */
  lemma CountedAppend(c: S.Counters, logs: seq<LogElement>, e: LogElement, trackTotal: bool)
    requires Proper(logs) && WellFormed(e) && Counted(c, logs, e.logId, trackTotal)
    ensures Counted(S.Add(c, Tally(e, trackTotal), e.logId == LOG_ID_KERNEL), logs + [e], e.logId, trackTotal)
  {
    hide S.Agrees, S.Add;
    var es := Select(logs, OfLog(e.logId));
    SelectConcat(logs, [e], OfLog(e.logId));
    SelectOne(e, OfLog(e.logId));
    SelectWellFormed(logs, OfLog(e.logId));
    AllCountable(es, trackTotal);
    AllCountable([e], trackTotal);
    assert S.Countable(Tallies([e], trackTotal)[0]);
    TalliesConcat(es, [e], trackTotal);
    assert Tallies([e], trackTotal) == [Tally(e, trackTotal)];
    S.AddAgrees(c, Tallies(es, trackTotal), Tally(e, trackTotal), e.logId == LOG_ID_KERNEL);
  }

  /** Counting a removed element out. */
  lemma CountedRemove(c: S.Counters, logs: seq<LogElement>, i: nat, trackTotal: bool)
    requires Proper(logs) && i < |logs| && Counted(c, logs, logs[i].logId, trackTotal)
    ensures var e := logs[i]; Counted(S.Subtract(c, Tally(e, trackTotal), e.logId == LOG_ID_KERNEL), RemoveAt(logs, i), e.logId, trackTotal)
  {
    hide S.Agrees, S.Subtract;
    var e := logs[i];
    var p := OfLog(e.logId);
    var a, b := Select(logs[..i], p), Select(logs[i + 1..], p);
    SplitAtIndex(logs, i);
    SelectMid(logs[..i], e, logs[i + 1..], p);
    SelectConcat(logs[..i], logs[i + 1..], p);
    SelectWellFormed(logs, p);
    AllCountable(a + [e] + b, trackTotal);
    TalliesMid(a, e, b, trackTotal);
    TalliesConcat(a, b, trackTotal);
    S.SubtractAgrees(c, Tallies(a, trackTotal), Tally(e, trackTotal), Tallies(b, trackTotal), e.logId == LOG_ID_KERNEL);
  }

  /** A change to elements of one log leaves the counts of another as they are. */
  lemma CountedOther(c: S.Counters, logs: seq<LogElement>, now: seq<LogElement>, id: LogId, trackTotal: bool)
    requires Select(now, OfLog(id)) == Select(logs, OfLog(id))
    ensures Counted(c, now, id, trackTotal) <==> Counted(c, logs, id, trackTotal)
  {
  }

  /** Counted bytes: messages alone, or with what an element takes up in the list. */
  function ListBytes(es: seq<LogElement>, trackTotal: bool): nat
  {
    if es == [] then 0 else |es[0].msg| + (if trackTotal then LIST_OVERHEAD else 0) + ListBytes(es[1..], trackTotal)
  }

  function DroppedSum(es: seq<LogElement>): nat { if es == [] then 0 else es[0].dropped + DroppedSum(es[1..]) }

  function IsChatty(): LogElement -> bool { (e: LogElement) => e.dropped > 0 }
  function OfUid(uid: nat): LogElement -> bool { (e: LogElement) => e.uid == uid }

  lemma {:induction false} ListSums(es: seq<LogElement>, trackTotal: bool, uid: nat)
    ensures var ts, own := Tallies(es, trackTotal), Select(es, OfUid(uid));
      && S.SizeSum(ts) == ListBytes(es, trackTotal) && S.DroppedCount(ts) == |Select(es, IsChatty())|
      && S.RowSum(S.ByUid, ts, uid) == S.Row(ListBytes(own, trackTotal), DroppedSum(own))
  {
    if es != [] {
      ListSums(es[1..], trackTotal, uid);
      assert Tallies(es, trackTotal)[1..] == Tallies(es[1..], trackTotal);
      var own := Select(es[1..], OfUid(uid));
      assert ([es[0]] + own)[1..] == own;
    }
  }

  /**
   What the counters of a log say: the bytes, elements and chatty elements of it in the list, and for every uid
   that has an element, and no other, the bytes and the messages dropped.
   */
  lemma CountedMeans(c: S.Counters, logs: seq<LogElement>, id: LogId, trackTotal: bool)
    requires Counted(c, logs, id, trackTotal)
    ensures var es := Select(logs, OfLog(id));
      && c.sizes == ListBytes(es, trackTotal) && c.elements == |es| && c.droppedElements == |Select(es, IsChatty())|
      && (id != LOG_ID_KERNEL ==> forall uid: nat :: uid in c.uids <==> exists i :: 0 <= i < |es| && es[i].uid == uid)
      && (id != LOG_ID_KERNEL ==> forall uid :: uid in c.uids ==>
            c.uids[uid] == S.Row(ListBytes(Select(es, OfUid(uid)), trackTotal), DroppedSum(Select(es, OfUid(uid)))))
  {
    hide S.SizeSum, S.DroppedCount, S.RowSum, Select;
    var es := Select(logs, OfLog(id));
    var ts := Tallies(es, trackTotal);
    ListSums(es, trackTotal, 0);
    if id != LOG_ID_KERNEL {
      forall uid: nat ensures uid in c.uids <==> exists i :: 0 <= i < |es| && es[i].uid == uid {
        assert uid in c.uids <==> S.Has(S.ByUid, ts, uid);
        if i :| 0 <= i < |es| && es[i].uid == uid { assert S.Keyed(S.ByUid, ts[i], uid); }
      }
      forall uid | uid in c.uids
        ensures c.uids[uid] == S.Row(ListBytes(Select(es, OfUid(uid)), trackTotal), DroppedSum(Select(es, OfUid(uid))))
      {
        ListSums(es, trackTotal, uid);
      }
    }
  }
}
