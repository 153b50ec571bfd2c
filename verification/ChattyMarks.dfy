/**
 What Chatty pruning does to the list, as facts about values: watermarks that survive erasing and
 squashing, the source keys chatty elements are merged by, and how many messages the list stands for.
 */
module ChattyMarks {
  import opened Bytes
  import opened EntryLayout
  import opened FlatReader
  import opened ListElements
  import opened SimpleBuffer
  import S = LogStats

  /** What the worst offender is found by: the tag in the two logs that have one, the uid elsewhere. */
  function Key(e: LogElement): int
  {
    if e.logId == LOG_ID_EVENTS || e.logId == LOG_ID_SECURITY then e.tag else e.uid
  }

  // ---- Watermarks ----

  /** The watermark refers to a live element of log `id` with that key. */
  predicate MarkOk(logs: seq<LogElement>, id: LogId, key: int, s: nat)
  {
    var k := IndexOf(logs, s);
    k < |logs| && logs[k].logId == id && Key(logs[k]) == key
  }

  predicate PidMarkOk(logs: seq<LogElement>, id: LogId, pid: nat, s: nat)
  {
    var k := IndexOf(logs, s);
    k < |logs| && logs[k].logId == id && logs[k].pid == pid
  }

  /** Removing an element moves the later ones up. */
  lemma IndexAfterRemove(logs: seq<LogElement>, it: nat, s: nat)
    requires Proper(logs) && it < |logs| && IndexOf(logs, s) < |logs| && s != logs[it].sequence
    ensures var r, k := RemoveAt(logs, it), IndexOf(logs, s);
      k != it && IndexOf(r, s) == (if k < it then k else k - 1) && r[IndexOf(r, s)] == logs[k]
  {
    var r, k := RemoveAt(logs, it), IndexOf(logs, s);
    RemoveProper(logs, it);
    IndexIs(r, if k < it then k else k - 1);
  }

  /** Equal but for the message and the dropped count. */
  predicate SameSource(e: LogElement, f: LogElement)
  {
    && e.logId == f.logId && e.uid == f.uid && e.pid == f.pid && e.tid == f.tid && e.sequence == f.sequence
    && e.realtime == f.realtime && e.tag == f.tag
  }

  lemma IndexAfterReplace(logs: seq<LogElement>, i: nat, f: LogElement)
    requires Proper(logs) && i < |logs| && SameSource(logs[i], f) && WellFormed(f)
    ensures Proper(logs[i := f])
    ensures forall s :: IndexOf(logs[i := f], s) == IndexOf(logs, s)
  {
    var r := logs[i := f];
    forall s ensures IndexOf(r, s) == IndexOf(logs, s) {
      var k := IndexOf(logs, s);
      if k < |logs| { IndexIs(r, k); }
    }
  }

  // ---- How many messages the list stands for ----

  function MessageCount(logs: seq<LogElement>): nat
  {
    if logs == [] then 0 else Messages(logs[0]) + MessageCount(logs[1..])
  }

  lemma {:induction false} MessageCountConcat(a: seq<LogElement>, b: seq<LogElement>)
    ensures MessageCount(a + b) == MessageCount(a) + MessageCount(b)
  {
    if a == [] {
      assert a + b == b;
    } else {
      assert (a + b)[1..] == a[1..] + b;
      MessageCountConcat(a[1..], b);
    }
  }

  lemma MessageCountAt(logs: seq<LogElement>, i: nat, f: LogElement)
    requires i < |logs|
    ensures MessageCount(RemoveAt(logs, i)) + Messages(logs[i]) == MessageCount(logs)
    ensures MessageCount(logs[i := f]) + Messages(logs[i]) == MessageCount(logs) + Messages(f)
  {
    SplitAtIndex(logs, i);
    assert logs[i := f] == logs[..i] + [f] + logs[i + 1..];
    MessageCountConcat(logs[..i] + [logs[i]], logs[i + 1..]);
    MessageCountConcat(logs[..i], [logs[i]]);
    MessageCountConcat(logs[..i] + [f], logs[i + 1..]);
    MessageCountConcat(logs[..i], [f]);
    MessageCountConcat(logs[..i], logs[i + 1..]);
    assert [logs[i]][1..] == [] && [f][1..] == [];
  }

  /** How many elements still carry their message. */
  function Whole(logs: seq<LogElement>): nat { |Select(logs, HasMessage())| }

  function HasMessage(): LogElement -> bool { (e: LogElement) => e.dropped == 0 }

  lemma WholeAt(logs: seq<LogElement>, i: nat, f: LogElement)
    requires i < |logs|
    ensures Whole(RemoveAt(logs, i)) + (if logs[i].dropped == 0 then 1 else 0) == Whole(logs)
    ensures Whole(logs[i := f]) + (if logs[i].dropped == 0 then 1 else 0) == Whole(logs) + if f.dropped == 0 then 1 else 0
  {
    var p := HasMessage();
    SplitAtIndex(logs, i);
    assert logs[i := f] == logs[..i] + [f] + logs[i + 1..];
    SelectMid(logs[..i], logs[i], logs[i + 1..], p);
    SelectMid(logs[..i], f, logs[i + 1..], p);
    SelectConcat(logs[..i], logs[i + 1..], p);
  }

  lemma WholeMerged(logs: seq<LogElement>, f: nat, it: nat)
    requires f < it < |logs| && logs[f].dropped > 0 && logs[it].dropped > 0
    ensures Whole(Merged(logs, f, it)) == Whole(logs)
  {
    var x := SetDropped(logs[f], logs[f].dropped + logs[it].dropped);
    WholeAt(logs, f, x);
    WholeAt(logs[f := x], it, x);
  }

  /**
   Of the rows of a first pass all but `left` are used up, and each stands for one message taken, except
   that the last one is used up without taking one if it comes to a message of the worst offender.
   */
  predicate Taken(was: seq<LogElement>, logs: seq<LogElement>, rows: nat, left: nat)
  {
    left <= rows && |logs| <= |was| && Whole(was) <= Whole(logs) + (rows - left) <= Whole(was) + if left == 0 then 1 else 0
  }

  lemma {:induction false} WholeDropped(logs: seq<LogElement>, p: LogElement -> bool, n: nat)
    requires n <= |Select(logs, p)|
    ensures Whole(DropFirst(logs, p, n)) <= Whole(logs) <= Whole(DropFirst(logs, p, n)) + n
    ensures |DropFirst(logs, p, n)| + n == |logs|
  {
    if logs != [] && n > 0 {
      WholeDropped(logs[1..], p, if p(logs[0]) then n - 1 else n);
      if !p(logs[0]) {
        var r := DropFirst(logs[1..], p, n);
        assert ([logs[0]] + r)[1..] == r;
      }
    }
  }

  // ---- What pruning of log `id` up to a reader's limit may touch ----

  function Protected(id: LogId, limit: Option<nat>): LogElement -> bool
  {
    (e: LogElement) => e.logId != id || Needed(e, limit)
  }

  /** Within log `id` numbers ascend. */
  predicate Rising(logs: seq<LogElement>, id: LogId)
  {
    forall i, j :: 0 <= i < j < |logs| && logs[i].logId == id && logs[j].logId == id ==> logs[i].sequence < logs[j].sequence
  }

  /** The element was there before, perhaps with its message or with a lower count. */
  predicate StemsFrom(logs0: seq<LogElement>, e: LogElement) { exists i :: 0 <= i < |logs0| && SameSource(logs0[i], e) }

  predicate Absent(logs: seq<LogElement>, s: nat) { forall i :: 0 <= i < |logs| ==> logs[i].sequence != s }

  /**
   Pruning took `logs0` to `logs`: whatever belongs to another log or is needed by a reader is still there,
   unchanged and in order; what was not is in order, too, and stems from what was there; and the messages no
   longer accounted for are exactly those of the elements in `gone`, all of them of this log, needed by no
   reader, and out of the list.
   */
  ghost predicate Trimmed(logs0: seq<LogElement>, logs: seq<LogElement>, id: LogId, limit: Option<nat>, gone: seq<LogElement>)
  {
    && Select(logs, Protected(id, limit)) == Select(logs0, Protected(id, limit))
    && MessageCount(logs) + MessageCount(gone) == MessageCount(logs0)
    && (forall i :: 0 <= i < |logs| ==> StemsFrom(logs0, logs[i]))
    && (forall i :: 0 <= i < |gone| ==> Erasable(logs0, logs, id, limit, gone[i])) && Unlike(gone)
    && (Rising(logs0, id) ==> Rising(logs, id))
  }

  predicate Erasable(logs0: seq<LogElement>, logs: seq<LogElement>, id: LogId, limit: Option<nat>, g: LogElement)
  {
    g.logId == id && !Needed(g, limit) && StemsFrom(logs0, g) && Absent(logs, g.sequence)
  }

  lemma TrimNothing(logs: seq<LogElement>, id: LogId, limit: Option<nat>)
    ensures Trimmed(logs, logs, id, limit, [])
  {
    forall i | 0 <= i < |logs| ensures StemsFrom(logs, logs[i]) { assert SameSource(logs[i], logs[i]); }
  }

  lemma MessageCountSnoc(gone: seq<LogElement>, e: LogElement)
    ensures MessageCount(gone + [e]) == MessageCount(gone) + Messages(e)
  {
    MessageCountConcat(gone, [e]);
    assert [e][1..] == [];
  }

  lemma TrimErased(logs0: seq<LogElement>, logs: seq<LogElement>, id: LogId, limit: Option<nat>, gone: seq<LogElement>, it: nat)
    requires Trimmed(logs0, logs, id, limit, gone) && Proper(logs) && it < |logs| && logs[it].logId == id && !Needed(logs[it], limit)
    ensures Trimmed(logs0, RemoveAt(logs, it), id, limit, gone + [logs[it]])
  {
    hide Select, MessageCount, StemsFrom;
    RemoveSelected(logs, it, Protected(id, limit));
    MessageCountAt(logs, it, logs[it]);
    MessageCountSnoc(gone, logs[it]);
    var r := RemoveAt(logs, it);
    assert forall k :: 0 <= k < |r| ==> r[k] == logs[if k < it then k else k + 1];
    assert Absent(r, logs[it].sequence);
    forall i | 0 <= i < |gone| ensures Absent(r, gone[i].sequence) && gone[i].sequence != logs[it].sequence {
      assert Erasable(logs0, logs, id, limit, gone[i]);
    }
  }

  /** Replacing an element by one of the same source keeps everything but the count. */
  lemma TrimReplaced(logs0: seq<LogElement>, logs: seq<LogElement>, id: LogId, limit: Option<nat>, gone: seq<LogElement>, it: nat, x: LogElement)
    requires Trimmed(logs0, logs, id, limit, gone) && it < |logs| && logs[it].logId == id && !Needed(logs[it], limit) && SameSource(logs[it], x)
    ensures var r := logs[it := x];
      && Select(r, Protected(id, limit)) == Select(logs0, Protected(id, limit)) && (forall i :: 0 <= i < |r| ==> StemsFrom(logs0, r[i]))
      && (forall i :: 0 <= i < |gone| ==> Erasable(logs0, r, id, limit, gone[i])) && (Rising(logs0, id) ==> Rising(r, id))
  {
    hide Select, MessageCount;
    ReplaceSelected(logs, it, x, Protected(id, limit));
    assert StemsFrom(logs0, x) by {
      var k :| 0 <= k < |logs0| && SameSource(logs0[k], logs[it]);
      assert SameSource(logs0[k], x);
    }
    forall i | 0 <= i < |gone| ensures Erasable(logs0, logs[it := x], id, limit, gone[i]) { assert Erasable(logs0, logs, id, limit, gone[i]); }
  }

  /** A message becomes a chatty element standing for it. */
  lemma TrimDropped(logs0: seq<LogElement>, logs: seq<LogElement>, id: LogId, limit: Option<nat>, gone: seq<LogElement>, it: nat)
    requires Trimmed(logs0, logs, id, limit, gone) && it < |logs| && logs[it].logId == id && !Needed(logs[it], limit) && logs[it].dropped == 0
    ensures Trimmed(logs0, logs[it := SetDropped(logs[it], 1)], id, limit, gone)
  {
    hide Select, MessageCount, StemsFrom, Erasable, Rising;
    TrimReplaced(logs0, logs, id, limit, gone, it, SetDropped(logs[it], 1));
    MessageCountAt(logs, it, SetDropped(logs[it], 1));
  }

  /** Element f takes over the dropped count of element `it`, which goes away. */
  function Merged(logs: seq<LogElement>, f: nat, it: nat): seq<LogElement>
    requires f < it < |logs|
  {
    RemoveAt(logs[f := SetDropped(logs[f], logs[f].dropped + logs[it].dropped)], it)
  }

  lemma TrimMerged(logs0: seq<LogElement>, logs: seq<LogElement>, id: LogId, limit: Option<nat>, gone: seq<LogElement>, f: nat, it: nat)
    requires Trimmed(logs0, logs, id, limit, gone) && f < it < |logs|
    requires logs[it].logId == id && !Needed(logs[it], limit) && logs[it].dropped > 0
    requires logs[f].logId == id && !Needed(logs[f], limit) && logs[f].dropped > 0
    ensures Trimmed(logs0, Merged(logs, f, it), id, limit, gone)
  {
    hide Select, MessageCount, StemsFrom;
    var x := SetDropped(logs[f], logs[f].dropped + logs[it].dropped);
    var mid := logs[f := x];
    TrimReplaced(logs0, logs, id, limit, gone, f, x);
    MessageCountAt(logs, f, x);
    RemoveSelected(mid, it, Protected(id, limit));
    MessageCountAt(mid, it, mid[it]);
    var r := RemoveAt(mid, it);
    assert forall k :: 0 <= k < |r| ==> r[k] == mid[if k < it then k else k + 1];
    forall i | 0 <= i < |gone| ensures Erasable(logs0, r, id, limit, gone[i]) { assert Erasable(logs0, mid, id, limit, gone[i]); }
  }

  // ---- The last chatty element of each source ----

  /** LogBufferElementKey: pids and tids are taken to fit 16 bits. */
  function SourceKey(e: LogElement): nat { e.uid * 0x1_0000_0000 + e.pid * 0x1_0000 + e.tid }

  lemma SameKeySameSource(e: LogElement, f: LogElement)
    requires Narrow(e) && Narrow(f) && SourceKey(e) == SourceKey(f)
    ensures e.uid == f.uid && e.pid == f.pid && e.tid == f.tid
  {
  }

  /** A pid of 17 bits runs into the uid: two sources with one key (no bits overlap here, so adding is or-ing). */
  lemma WideKeysCollide()
    ensures exists e: LogElement, f: LogElement :: SourceKey(e) == SourceKey(f) && e.uid != f.uid && e.pid == 0x1_0000 && Narrow(f)
  {
    var e, f := LogElement(0, 0, 0x1_0000, 0, 1, 1, 0, [65], 0), LogElement(0, 1, 0, 0, 2, 1, 0, [65], 0);
    assert SourceKey(e) == SourceKey(f) && Narrow(f);
  }

  /** Each entry refers to a chatty element of log `id` from index `from` on and before `it` that no reader needs, under its own key. */
  ghost predicate LastOk(logs: seq<LogElement>, from: nat, it: nat, last: map<nat, nat>, id: LogId, limit: Option<nat>)
  {
    from <= it <= |logs| && forall k :: k in last ==> LastEntryOk(logs, from, it, k, last[k], id, limit)
  }

  predicate LastEntryOk(logs: seq<LogElement>, from: nat, it: nat, key: nat, s: nat, id: LogId, limit: Option<nat>)
    requires it <= |logs|
  {
    var f := IndexOf(logs, s);
    from <= f < it && logs[f].logId == id && logs[f].dropped > 0 && !Needed(logs[f], limit) && SourceKey(logs[f]) == key
  }

  lemma LastAfterErase(logs: seq<LogElement>, from: nat, it: nat, last: map<nat, nat>, id: LogId, limit: Option<nat>)
    requires Proper(logs) && it < |logs| && LastOk(logs, from, it, last, id, limit)
    ensures LastOk(RemoveAt(logs, it), from, it, last, id, limit)
  {
    forall k | k in last ensures LastEntryOk(RemoveAt(logs, it), from, it, k, last[k], id, limit) {
      assert LastEntryOk(logs, from, it, k, last[k], id, limit);
      IndexIs(logs, it);
      IndexAfterRemove(logs, it, last[k]);
    }
  }

  lemma LastAfterReplace(logs: seq<LogElement>, from: nat, it: nat, last: map<nat, nat>, id: LogId, limit: Option<nat>, i: nat, f: LogElement)
    requires Proper(logs) && it <= |logs| && LastOk(logs, from, it, last, id, limit) && i < |logs| && SameSource(logs[i], f) && WellFormed(f) && f.dropped > 0
    ensures LastOk(logs[i := f], from, it, last, id, limit)
  {
    IndexAfterReplace(logs, i, f);
    forall k | k in last ensures LastEntryOk(logs[i := f], from, it, k, last[k], id, limit) {
      assert LastEntryOk(logs, from, it, k, last[k], id, limit);
    }
  }

  lemma LastStep(logs: seq<LogElement>, from: nat, it: nat, last: map<nat, nat>, id: LogId, limit: Option<nat>, more: map<nat, nat>)
    requires Proper(logs) && it < |logs| && LastOk(logs, from, it, last, id, limit)
    requires more == last || (more == last[SourceKey(logs[it]) := logs[it].sequence] && logs[it].logId == id && logs[it].dropped > 0 && !Needed(logs[it], limit))
    ensures LastOk(logs, from, it + 1, more, id, limit)
  {
    IndexIs(logs, it);
    forall k | k in more ensures LastEntryOk(logs, from, it + 1, k, more[k], id, limit) {
      if k in last && more[k] == last[k] { assert LastEntryOk(logs, from, it, k, last[k], id, limit); }
    }
  }

  // ---- Statistics ----

  lemma CountedDrop(c: S.Counters, logs: seq<LogElement>, i: nat, trackTotal: bool)
    requires Proper(logs) && i < |logs| && logs[i].dropped == 0 && Counted(c, logs, logs[i].logId, trackTotal)
    ensures Counted(S.Drop(c, Tally(logs[i], trackTotal)), logs[i := SetDropped(logs[i], 1)], logs[i].logId, trackTotal)
  {
    hide S.Agrees, S.Drop;
    var e, p := logs[i], OfLog(logs[i].logId);
    var f := SetDropped(e, 1);
    var a, b := Select(logs[..i], p), Select(logs[i + 1..], p);
    SplitAtIndex(logs, i);
    SelectMid(logs[..i], e, logs[i + 1..], p);
    assert logs[i := f] == logs[..i] + [f] + logs[i + 1..];
    SelectMid(logs[..i], f, logs[i + 1..], p);
    SelectWellFormed(logs, p);
    AllCountable(a + [e] + b, trackTotal);
    TalliesMid(a, e, b, trackTotal);
    TalliesMid(a, f, b, trackTotal);
    S.CountableParts(Tallies(a, trackTotal), Tally(e, trackTotal), Tallies(b, trackTotal));
    S.DropAgrees(c, Tallies(a, trackTotal), Tally(e, trackTotal), Tallies(b, trackTotal), e.logId == LOG_ID_KERNEL);
    assert S.Dropped(Tally(e, trackTotal)) == Tally(f, trackTotal);
  }

  lemma SelectTwo(a: seq<LogElement>, f: LogElement, b: seq<LogElement>, e: LogElement, d: seq<LogElement>, p: LogElement -> bool)
    requires p(f)
    ensures Select(a + [f] + b + [e] + d, p) == Select(a, p) + [f] + Select(b, p) + (if p(e) then [e] else []) + Select(d, p)
    ensures Select(a + [f] + b + d, p) == Select(a, p) + [f] + Select(b, p) + Select(d, p)
  {
    SelectMid(a + [f] + b, e, d, p);
    SelectMid(a, f, b, p);
    SelectConcat(a + [f] + b, d, p);
  }

  lemma TalliesTwo(a: seq<LogElement>, f: LogElement, b: seq<LogElement>, e: LogElement, d: seq<LogElement>, t: bool)
    ensures Tallies(a + [f] + b + [e] + d, t) == Tallies(a, t) + [Tally(f, t)] + Tallies(b, t) + [Tally(e, t)] + Tallies(d, t)
    ensures Tallies(a + [f] + b + d, t) == Tallies(a, t) + [Tally(f, t)] + Tallies(b, t) + Tallies(d, t)
  {
    TalliesMid(a + [f] + b, e, d, t);
    TalliesMid(a, f, b, t);
    TalliesConcat(a + [f] + b, d, t);
  }

  lemma CountedMerge(c: S.Counters, logs: seq<LogElement>, f: nat, it: nat, t: bool)
    requires Proper(logs) && f < it < |logs| && Counted(c, logs, logs[it].logId, t)
    requires logs[f].logId == logs[it].logId && logs[f].uid == logs[it].uid && logs[f].pid == logs[it].pid
    requires logs[f].dropped > 0 && logs[it].dropped > 0
    ensures Counted(S.Erase(c, Tally(logs[it], t)), Merged(logs, f, it), logs[it].logId, t)
  {
    hide S.Agrees, S.Erase;
    var e, x, p := logs[it], logs[f], OfLog(logs[it].logId);
    var y := SetDropped(x, x.dropped + e.dropped);
    var a, b, d := logs[..f], logs[f + 1..it], logs[it + 1..];
    assert logs == a + [x] + b + [e] + d;
    assert Merged(logs, f, it) == a + [y] + b + d;
    SelectTwo(a, x, b, e, d, p);
    SelectTwo(a, y, b, e, d, p);
    var sa, sb, sd := Select(a, p), Select(b, p), Select(d, p);
    TalliesTwo(sa, x, sb, e, sd, t);
    TalliesTwo(sa, y, sb, e, sd, t);
    assert WellFormed(x);
    assert S.Absorbed(Tally(x, t), Tally(e, t)) == Tally(y, t);
    S.EraseAgrees(c, Tallies(sa, t), Tally(x, t), Tallies(sb, t), Tally(e, t), Tallies(sd, t), e.logId == LOG_ID_KERNEL);
  }

  /** Nothing of another log changes. */
  lemma OtherLogSame(logs: seq<LogElement>, now: seq<LogElement>, id: LogId, limit: Option<nat>, b: LogId)
    requires Select(now, Protected(id, limit)) == Select(logs, Protected(id, limit)) && b != id
    ensures Select(now, OfLog(b)) == Select(logs, OfLog(b))
  {
    SelectTwice(now, Protected(id, limit), OfLog(b));
    SelectTwice(logs, Protected(id, limit), OfLog(b));
  }

  lemma {:induction false} SelectTwice(logs: seq<LogElement>, p: LogElement -> bool, q: LogElement -> bool)
    requires forall e :: q(e) ==> p(e)
    ensures Select(Select(logs, p), q) == Select(logs, q)
  {
    if logs != [] {
      SelectTwice(logs[1..], p, q);
      var s := Select(logs[1..], p);
      if p(logs[0]) { assert ([logs[0]] + s)[1..] == s; }
    }
  }

  /** Erasing the first free matches of log `id` touches nothing protected. */
  lemma {:induction false} DropTrims(logs: seq<LogElement>, p: LogElement -> bool, n: nat, id: LogId, limit: Option<nat>)
    requires n <= Free(Select(logs, p), limit) && forall e :: p(e) ==> e.logId == id
    ensures Select(DropFirst(logs, p, n), Protected(id, limit)) == Select(logs, Protected(id, limit))
    ensures MessageCount(DropFirst(logs, p, n)) + MessageCount(Select(logs, p)[..n]) == MessageCount(logs)
    ensures forall i :: 0 <= i < n ==> !Needed(Select(logs, p)[i], limit)
  {
    if logs != [] && n > 0 {
      var t := logs[1..];
      if p(logs[0]) {
        assert Select(logs, p)[1..] == Select(t, p);
        DropTrims(t, p, n - 1, id, limit);
        assert Select(logs, p)[..n][1..] == Select(t, p)[..n - 1];
      } else {
        DropTrims(t, p, n, id, limit);
        var r := DropFirst(t, p, n);
        assert ([logs[0]] + r)[1..] == r;
      }
    }
  }

  /** What is left was there, still in order. */
  lemma {:induction false} DropFirstFrom(logs: seq<LogElement>, p: LogElement -> bool, n: nat, id: LogId)
    requires n <= |Select(logs, p)|
    ensures var r := DropFirst(logs, p, n);
      (forall e :: e in r ==> e in logs) && (Rising(logs, id) ==> Rising(r, id))
  {
    if logs != [] && n > 0 {
      var t, m := logs[1..], if p(logs[0]) then n - 1 else n;
      DropFirstFrom(t, p, m, id);
      var r, rest := DropFirst(logs, p, n), DropFirst(t, p, m);
      hide Select, Rising;
      assert logs == [logs[0]] + t && r == if p(logs[0]) then rest else [logs[0]] + rest;
      if Rising(logs, id) { RisingTail(logs, rest, id, r); }
    }
  }

  /** The first n matches are out of the list. */
  lemma {:induction false} DropFirstAbsent(logs: seq<LogElement>, p: LogElement -> bool, n: nat)
    requires n <= |Select(logs, p)| && Proper(logs)
    ensures forall i :: 0 <= i < n ==> Absent(DropFirst(logs, p, n), Select(logs, p)[i].sequence)
  {
    if logs != [] && n > 0 {
      var t, m := logs[1..], if p(logs[0]) then n - 1 else n;
      assert Proper(t) by { assert forall k :: 0 <= k < |t| ==> t[k] == logs[k + 1]; }
      DropFirstAbsent(t, p, m);
      DropFirstFrom(t, p, m, 0);
      forall i | 0 <= i < n ensures Absent(DropFirst(logs, p, n), Select(logs, p)[i].sequence) {
        DroppedAbsent(logs, p, n, i);
      }
    }
  }

  lemma RisingTail(logs: seq<LogElement>, rest: seq<LogElement>, id: LogId, r: seq<LogElement>)
    requires logs != [] && Rising(logs, id) && (Rising(logs[1..], id) ==> Rising(rest, id)) && forall e :: e in rest ==> e in logs[1..]
    requires r == rest || r == [logs[0]] + rest
    ensures Rising(r, id)
  {
    var t := logs[1..];
    assert Rising(t, id) by { assert forall k :: 0 <= k < |t| ==> t[k] == logs[k + 1]; }
    forall i, j | 0 <= i < j < |r| && r[i].logId == id && r[j].logId == id ensures r[i].sequence < r[j].sequence {
      if r == rest {
      } else if i == 0 {
        assert r[j] == rest[j - 1] && rest[j - 1] in t;
        var k :| 0 <= k < |t| && t[k] == r[j];
        assert logs[k + 1] == t[k];
      } else {
        assert r[i] == rest[i - 1] && r[j] == rest[j - 1];
      }
    }
  }

  lemma DroppedAbsent(logs: seq<LogElement>, p: LogElement -> bool, n: nat, i: nat)
    requires Proper(logs) && logs != [] && 0 < n && i < n <= |Select(logs, p)|
    requires var t, m := logs[1..], if p(logs[0]) then n - 1 else n;
      m <= |Select(t, p)| && (forall e :: e in DropFirst(t, p, m) ==> e in t) && forall k :: 0 <= k < m ==> Absent(DropFirst(t, p, m), Select(t, p)[k].sequence)
    ensures Absent(DropFirst(logs, p, n), Select(logs, p)[i].sequence)
  {
    var t := logs[1..];
    var r, g := DropFirst(logs, p, n), Select(logs, p)[i];
    SelectMembers(t, p);
    forall k | 0 <= k < |r| ensures r[k].sequence != g.sequence {
      if p(logs[0]) && i == 0 {
        assert r[k] in t;
        var j :| 0 <= j < |t| && t[j] == r[k];
        assert logs[0].sequence != logs[j + 1].sequence;
      } else if !p(logs[0]) && k == 0 {
        assert g in Select(t, p);
        var j :| 0 <= j < |t| && t[j] == g;
        assert logs[0].sequence != logs[j + 1].sequence;
      }
    }
  }

  /** Trimming what was trimmed before. */
  lemma TrimAgain(logs0: seq<LogElement>, logs1: seq<LogElement>, id: LogId, limit: Option<nat>, gone: seq<LogElement>, p: LogElement -> bool, n: nat)
    requires Trimmed(logs0, logs1, id, limit, gone) && Proper(logs1) && n <= Free(Select(logs1, p), limit) && forall e :: p(e) ==> e.logId == id
    ensures n <= |Select(logs1, p)| && Trimmed(logs0, DropFirst(logs1, p, n), id, limit, gone + Select(logs1, p)[..n])
  {
    hide Select, MessageCount, StemsFrom, Rising, DropFirst, Free, Proper;
    var s, r := Select(logs1, p), DropFirst(logs1, p, n);
    DropTrims(logs1, p, n, id, limit);
    DropFirstFrom(logs1, p, n, id);
    DropFirstAbsent(logs1, p, n);
    MessageCountConcat(gone, s[..n]);
    SelectMembers(logs1, p);
    forall i | 0 <= i < |r| ensures StemsFrom(logs0, r[i]) { assert r[i] in logs1; }
    var all := gone + s[..n];
    forall i | 0 <= i < |all| ensures Erasable(logs0, r, id, limit, all[i]) {
      if i < |gone| {
        assert Erasable(logs0, logs1, id, limit, gone[i]);
        forall k | 0 <= k < |r| ensures r[k].sequence != gone[i].sequence { assert r[k] in logs1; }
      } else {
        assert all[i] == s[i - |gone|] && s[i - |gone|] in logs1;
      }
    }
    UnlikeMore(logs1, gone, p, n);
  }

  lemma UnlikeMore(logs: seq<LogElement>, gone: seq<LogElement>, p: LogElement -> bool, n: nat)
    requires Proper(logs) && Unlike(gone) && n <= |Select(logs, p)| && forall i :: 0 <= i < |gone| ==> Absent(logs, gone[i].sequence)
    ensures Unlike(gone + Select(logs, p)[..n])
  {
    SelectMembers(logs, p);
    UnlikeSelected(logs, p);
    hide Select;
    var s := Select(logs, p);
    forall i, j | 0 <= i < |gone| && 0 <= j < |s| ensures gone[i].sequence != s[j].sequence {
      assert s[j] in logs;
    }
  }

  lemma {:induction false} UnlikeSelected(logs: seq<LogElement>, p: LogElement -> bool)
    requires Unlike(logs)
    ensures Unlike(Select(logs, p))
  {
    if logs != [] {
      var t := logs[1..];
      assert Unlike(t) by { assert forall i :: 0 <= i < |t| ==> t[i] == logs[i + 1]; }
      UnlikeSelected(t, p);
      SelectMembers(t, p);
      forall j | 0 <= j < |Select(t, p)| ensures Select(t, p)[j].sequence != logs[0].sequence {
        assert Select(t, p)[j] in t;
        var k :| 0 <= k < |t| && t[k] == Select(t, p)[j];
        assert logs[k + 1] == t[k];
      }
    }
  }

  /** What a watching reader still needs survives. */
  lemma TrimKeepsNeeded(logs0: seq<LogElement>, logs: seq<LogElement>, id: LogId, limit: Option<nat>, gone: seq<LogElement>, e: LogElement)
    requires Trimmed(logs0, logs, id, limit, gone) && e in logs0 && (e.logId != id || Needed(e, limit))
    ensures e in logs
  {
    SelectMembers(logs0, Protected(id, limit));
    SelectMembers(logs, Protected(id, limit));
  }

  /** All free matches erased: the log is empty exactly if there was nothing but free ones. */
  /** Nothing of log `id` may go: it has no element, or a reader needs the first. */
  predicate Exhausted(logs: seq<LogElement>, id: LogId, limit: Option<nat>) { Free(Select(logs, Matches(id, 0)), limit) == 0 }

  lemma ExhaustedAt(logs: seq<LogElement>, it: nat, id: LogId, limit: Option<nat>)
    requires it <= |logs| && NoneBefore(logs, it, id) && (it < |logs| ==> logs[it].logId == id && Needed(logs[it], limit))
    ensures Exhausted(logs, id, limit)
  {
    var p := Matches(id, 0);
    assert logs == logs[..it] + logs[it..];
    SelectNone(logs[..it], p);
    SelectConcat(logs[..it], logs[it..], p);
  }

  /** After everything that may go has gone. */
  lemma AllFreeGone(logs: seq<LogElement>, id: LogId, limit: Option<nat>)
    ensures Exhausted(DropFirst(logs, Matches(id, 0), Free(Select(logs, Matches(id, 0)), limit)), id, limit)
  {
    var p := Matches(id, 0);
    DropFirstKeeps(logs, p, Free(Select(logs, p), limit));
    NoneFreeAfter(Select(logs, p), limit);
  }

  lemma {:induction false} NoneFreeAfter(s: seq<LogElement>, limit: Option<nat>)
    ensures Free(s[Free(s, limit)..], limit) == 0
  {
    if s != [] && !Needed(s[0], limit) {
      NoneFreeAfter(s[1..], limit);
      assert s[Free(s, limit)..] == s[1..][Free(s[1..], limit)..];
    }
  }

  lemma DropAllFree(logs: seq<LogElement>, id: LogId, limit: Option<nat>)
    ensures var p := Matches(id, 0);
      var free := Free(Select(logs, p), limit);
      free == |Select(logs, p)| <==> NoneBefore(DropFirst(logs, p, free), |DropFirst(logs, p, free)|, id)
  {
    var p := Matches(id, 0);
    var free := Free(Select(logs, p), limit);
    var r := DropFirst(logs, p, free);
    DropFirstKeeps(logs, p, free);
    SelectMembers(r, p);
    if NoneBefore(r, |r|, id) {
      SelectNone(r, p);
    }
    if free == |Select(logs, p)| {
      forall j | 0 <= j < |r| ensures r[j].logId != id {
        assert r[j] !in Select(r, p);
      }
    }
  }
}
