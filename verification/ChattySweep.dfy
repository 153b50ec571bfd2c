/**
 One round of the first pruning pass, as facts about values: which messages it may take, which elements it
 erases and which it squashes, how chatty elements are merged, and where it ends.
 */
module ChattySweep {
  import opened Bytes
  import opened EntryLayout
  import opened FlatReader
  import opened ListElements
  import opened SimpleBuffer
  import opened ChattyMarks

  const EXPIRE_THRESHOLD := 10
  const EXPIRE_RATELIMIT := 10
  const TOO_OLD := 24 * 3600 * 1_000_000_000          // EXPIRE_HOUR_THRESHOLD in nanoseconds
  const NS_PER_SEC := 1_000_000_000
  const SIZE_T := 0x1_0000_0000_0000_0000

  /** What WorstTwoUids, WorstTwoTags and WorstTwoSystemPids report; no source is worst when `worst` is -1. */
  datatype Offender = Offender(worst: int, sizes: nat, second: nat, worstPid: nat)

  /** Prune rules and settings, all arbitrary. */
  datatype Rules = Rules(high: Option<LogElement -> bool>, low: Option<LogElement -> bool>, worstUid: bool)

  /** What one round of the first pass goes by. */
  datatype Sweep = Sweep(id: LogId, limit: Option<nat>, o: Offender, high: Option<LogElement -> bool>, gc: bool, lastTime: nat)

  /** The locals of one round of the first pass. */
  datatype Cursor = Cursor(it: nat, last: map<nat, nat>, leading: bool, kick: bool, left: nat, sizes: nat)

  predicate IsHigh(s: Sweep, e: LogElement) { s.high.Some? && s.high.value(e) }

  /** A message the round is after: one a high priority rule matches, or one of the worst offender. */
  predicate Doomed(s: Sweep, e: LogElement)
  {
    e.logId == s.id && e.dropped == 0 && (IsHigh(s, e) || (Key(e) == s.o.worst && (s.o.worstPid == 0 || e.pid == s.o.worstPid)))
  }

  predicate OutOfTime(e: LogElement, s: Sweep) { e.realtime < s.lastTime - TOO_OLD || e.realtime > s.lastTime }

  /** LogBufferElementLast::clear: forget old sources that have dropped enough to be reported. */
  function Forget(logs: seq<LogElement>, last: map<nat, nat>, e: LogElement): (m: map<nat, nat>)
    ensures m.Keys <= last.Keys && forall k :: k in m ==> m[k] == last[k]
  {
    var current := (e.realtime - EXPIRE_RATELIMIT * NS_PER_SEC) % SIZE_T;
    map k | k in last && !Expired(logs, last[k], current) :: last[k]
  }

  /** A source is forgotten exactly if it has dropped at least ten and its last chatty element is over ten seconds older, or time has just begun. */
  lemma ForgottenIff(logs: seq<LogElement>, last: map<nat, nat>, e: LogElement, k: nat)
    requires k in last && IndexOf(logs, last[k]) < |logs| && e.realtime < SIZE_T
    requires logs[IndexOf(logs, last[k])].realtime + 10_000_000_000 < SIZE_T
    ensures var f := logs[IndexOf(logs, last[k])];
      k in Forget(logs, last, e) <==> f.dropped < 10 || (10_000_000_000 <= e.realtime <= f.realtime + 10_000_000_000)
  {
    hide IndexOf;
    var i, current := IndexOf(logs, last[k]), (e.realtime - EXPIRE_RATELIMIT * NS_PER_SEC) % SIZE_T;
    assert current == WrapBack(e.realtime) by { WrapsBack(e.realtime); }
    assert Expired(logs, last[k], current) <==> logs[i].dropped >= 10 && current > logs[i].realtime;
  }

  /** Ten seconds before, or the end of time. */
  function WrapBack(t: nat): int { if t >= 10_000_000_000 then t - 10_000_000_000 else t + SIZE_T - 10_000_000_000 }

  lemma WrapsBack(t: nat)
    requires t < SIZE_T
    ensures (t - EXPIRE_RATELIMIT * NS_PER_SEC) % SIZE_T == WrapBack(t)
  {
    assert EXPIRE_RATELIMIT * NS_PER_SEC == 10_000_000_000;
    var d := t - 10_000_000_000;
    if d < 0 {
      assert d == -1 * SIZE_T + WrapBack(t);
    }
  }

  /** Enough messages were dropped for the count to be reported. */
  predicate Reportable(logs: seq<LogElement>, s: nat)
  {
    IndexOf(logs, s) < |logs| && logs[IndexOf(logs, s)].dropped >= EXPIRE_THRESHOLD
  }

  predicate Expired(logs: seq<LogElement>, s: nat, current: nat)
  {
    var i := IndexOf(logs, s);
    i < |logs| && logs[i].dropped >= EXPIRE_THRESHOLD && current > logs[i].realtime
  }

  /** The messages in the list are those of `before` without these, each of which was there once. */
  ghost predicate AccountedFor(before: seq<LogElement>, logs: seq<LogElement>, taken: seq<LogElement>)
  {
    && Unlike(taken) && (forall e :: e in taken ==> e in before && e.dropped == 0 && e !in logs)
    && (forall e :: e in before && e.dropped == 0 ==> e in logs || e in taken) && (forall e :: e in logs && e.dropped == 0 ==> e in before)
  }

  /** What the round has done so far to the list it began with, going from index `from`, the oldest element on if `lead`. */
  datatype Story = Story(before: seq<LogElement>, from: nat, lead: bool, rows: nat, taken: seq<LogElement>, erased: seq<LogElement>)

  /** How much of the original list has been visited when the round is at index `it`. */
  function Seen(logs: seq<LogElement>, it: nat, st: Story): int { |st.before| - (|logs| - it) }

  /** Nothing before `from` has changed, nor anything from `it` on. */
  predicate Placed(logs: seq<LogElement>, it: nat, st: Story)
  {
    && st.from <= it <= |logs| && st.from <= Seen(logs, it, st) <= |st.before|
    && logs[it..] == st.before[Seen(logs, it, st)..] && logs[..st.from] == st.before[..st.from]
  }

  /** What is taken was doomed, and not too old or new, which only a high priority rule does not mind. */
  predicate ForCause(s: Sweep, taken: seq<LogElement>)
  {
    forall i :: 0 <= i < |taken| ==> Doomed(s, taken[i]) && (IsHigh(s, taken[i]) || !OutOfTime(taken[i], s))
  }

  /** Nothing the round is after is left between `from` and `it`, and nothing there would have stopped it. */
  predicate Clean(logs: seq<LogElement>, from: nat, it: nat, s: Sweep)
  {
    from <= it <= |logs| && forall j :: from <= j < it ==>
      !Doomed(s, logs[j]) && !Needed(logs[j], s.limit) && (logs[j].logId == s.id ==> !OutOfTime(logs[j], s))
  }

  /** Nothing of log `id` that was before element g is kept. */
  predicate InFront(before: seq<LogElement>, kept: seq<LogElement>, g: LogElement, id: LogId)
  {
    forall j :: 0 <= j < IndexOf(before, g.sequence) && before[j].logId == id ==> Absent(kept, before[j].sequence)
  }

  /** An element goes without a trace if a high priority rule matches it, or if it is at the front of its log and the round began there. */
  predicate Goes(s: Sweep, st: Story, kept: seq<LogElement>, e: LogElement)
  {
    IsHigh(s, e) || (st.lead && InFront(st.before, kept, e, s.id))
  }

  /** Whatever was erased goes without a trace; a message taken is erased exactly then, and squashed otherwise. */
  ghost predicate WellErased(logs: seq<LogElement>, it: nat, s: Sweep, st: Story)
    requires it <= |logs|
  {
    && (forall g :: g in st.erased ==> g in st.before && IndexOf(st.before, g.sequence) < Seen(logs, it, st) && Goes(s, st, logs[..it], g))
    && (forall e :: e in st.taken ==> IndexOf(st.before, e.sequence) < Seen(logs, it, st) && (e in st.erased <==> Goes(s, st, logs[..it], e)))
  }

  /** Still at the front: the round began there, and no element of the log is behind it. */
  predicate Leading(logs: seq<LogElement>, it: nat, id: LogId, lead: bool)
    requires it <= |logs|
  {
    lead && NoneBefore(logs, it, id)
  }

  // ---- Chatty elements of one source ----

  predicate Chatty(e: LogElement, id: LogId) { e.logId == id && e.dropped > 0 }

  /** The chatty element at j is the last of its source before `it`. */
  predicate LastOfSource(logs: seq<LogElement>, j: nat, it: nat, id: LogId)
    requires j < it <= |logs|
  {
    Chatty(logs[j], id) && forall k :: j < k < it && Chatty(logs[k], id) ==> SourceKey(logs[k]) != SourceKey(logs[j])
  }

  /** A chatty element of this source was erased because a high priority rule matches it. */
  predicate Spoiled(s: Sweep, erased: seq<LogElement>, key: nat)
  {
    exists g :: g in erased && g.dropped > 0 && IsHigh(s, g) && SourceKey(g) == key
  }

  /** There may be reason not to remember this chatty element. */
  predicate Forgettable(e: LogElement, s: Sweep, erased: seq<LogElement>)
  {
    e.dropped >= EXPIRE_THRESHOLD || Spoiled(s, erased, SourceKey(e))
  }

  /** The last chatty element of a source is the one remembered, unless it was forgotten. */
  predicate Remembered(logs: seq<LogElement>, from: nat, it: nat, last: map<nat, nat>, s: Sweep, erased: seq<LogElement>)
    requires it <= |logs|
  {
    forall j :: from <= j < it && LastOfSource(logs, j, it, s.id) ==>
      var key := SourceKey(logs[j]); if key in last then last[key] == logs[j].sequence else Forgettable(logs[j], s, erased)
  }

  /**
   Two chatty elements of one source with none between stay apart only if their counts do not fit together, the
   first is reportable, or a high priority rule took one of that source.
   */
  predicate Compact(logs: seq<LogElement>, from: nat, it: nat, s: Sweep, erased: seq<LogElement>)
    requires it <= |logs|
  {
    forall j, k :: from <= j < k < it && LastOfSource(logs, j, k, s.id) && Chatty(logs[k], s.id) && SourceKey(logs[j]) == SourceKey(logs[k]) ==>
      logs[j].dropped + logs[k].dropped > USHRT_MAX || Forgettable(logs[j], s, erased)
  }

  // ---- The two ways an element is dealt with ----

  /** The element at `it` has left; chatty elements before it may stand for more. */
  predicate Left(logs: seq<LogElement>, now: seq<LogElement>, it: nat, from: nat)
  {
    && from <= it < |logs| && |now| == |logs| - 1 && now[it..] == logs[it + 1..] && now[..from] == logs[..from]
    && forall j :: 0 <= j < it ==> now[j] == logs[j] || Grown(logs[j], now[j])
  }

  predicate Grown(e: LogElement, f: LogElement) { SameSource(e, f) && 0 < e.dropped <= f.dropped }

  /** The element at `it` stays, if a message perhaps as a chatty element. */
  predicate Stayed(logs: seq<LogElement>, now: seq<LogElement>, it: nat)
  {
    && it < |logs| == |now| && now[..it] == logs[..it] && now[it + 1..] == logs[it + 1..]
    && (now[it] == logs[it] || (SameSource(logs[it], now[it]) && logs[it].dropped == 0 && now[it].dropped > 0))
  }

  lemma LeftPlaced(logs: seq<LogElement>, now: seq<LogElement>, it: nat, st: Story)
    requires Placed(logs, it, st) && st.from <= it && Left(logs, now, it, st.from)
    ensures Placed(now, it, st) && Seen(now, it, st) == Seen(logs, it, st) + 1
    ensures Seen(logs, it, st) < |st.before| && st.before[Seen(logs, it, st)] == logs[it]
  {
    assert logs[it..][0] == st.before[Seen(logs, it, st)..][0];
    assert now[it..] == logs[it..][1..];
  }

  lemma StayedPlaced(logs: seq<LogElement>, now: seq<LogElement>, it: nat, st: Story)
    requires Placed(logs, it, st) && Stayed(logs, now, it)
    ensures Placed(now, it + 1, st) && Seen(now, it + 1, st) == Seen(logs, it, st) + 1
    ensures Seen(logs, it, st) < |st.before| && st.before[Seen(logs, it, st)] == logs[it]
  {
    assert logs[it..][0] == st.before[Seen(logs, it, st)..][0];
    assert now[it + 1..] == logs[it..][1..];
    assert now[..st.from] == now[..it][..st.from] && logs[..st.from] == logs[..it][..st.from];
  }

  lemma SplitNow(now: seq<LogElement>, it: nat, e: LogElement)
    requires it <= |now| && e in now
    ensures (exists j :: 0 <= j < it && now[j] == e) || e in now[it..]
  {
    var j :| 0 <= j < |now| && now[j] == e;
    if j >= it { assert now[it..][j - it] == e; }
  }

  /** Messages: the one that left is the only one missing. */
  lemma LeftMessages(logs: seq<LogElement>, now: seq<LogElement>, it: nat, from: nat)
    requires Proper(logs) && Left(logs, now, it, from)
    ensures forall e: LogElement :: e.dropped == 0 ==> (e in now <==> e in logs && e != logs[it])
  {
    forall e: LogElement | e.dropped == 0 ensures e in now <==> e in logs && e != logs[it] {
      if e in now {
        SplitNow(now, it, e);
        if e in now[it..] {
          var i :| 0 <= i < |now[it..]| && now[it..][i] == e;
          assert logs[it + 1..][i] == logs[it + 1 + i];
        }
      }
      if e in logs && e != logs[it] {
        var j :| 0 <= j < |logs| && logs[j] == e;
        if j > it { assert now[it..][j - it - 1] == logs[it + 1..][j - it - 1] == e && now[j - 1] == e; } else { assert now[j] == e; }
      }
    }
  }

  lemma StayedMessages(logs: seq<LogElement>, now: seq<LogElement>, it: nat)
    requires Proper(logs) && Stayed(logs, now, it)
    ensures forall e: LogElement :: e.dropped == 0 ==> (e in now <==> e in logs && (now[it] == logs[it] || e != logs[it]))
  {
    forall e: LogElement | e.dropped == 0 ensures e in now <==> e in logs && (now[it] == logs[it] || e != logs[it]) {
      if e in now {
        var j :| 0 <= j < |now| && now[j] == e;
        StayedAt(logs, now, it, j);
      }
      if e in logs && (now[it] == logs[it] || e != logs[it]) {
        var j :| 0 <= j < |logs| && logs[j] == e;
        StayedAt(logs, now, it, j);
      }
    }
  }

  lemma StayedAt(logs: seq<LogElement>, now: seq<LogElement>, it: nat, j: nat)
    requires Stayed(logs, now, it) && j < |logs|
    ensures j != it ==> now[j] == logs[j]
  {
    if j < it { assert now[..it][j] == logs[..it][j]; }
    if j > it { assert now[it + 1..][j - it - 1] == logs[it + 1..][j - it - 1]; }
  }

  /** What leaves or stays, for the messages taken; `took` says whether the one at `it` was. */
  lemma NextAccounted(before: seq<LogElement>, logs: seq<LogElement>, now: seq<LogElement>, e: LogElement, taken: seq<LogElement>, took: bool)
    requires Proper(before) && AccountedFor(before, logs, taken) && e in logs && (took ==> e.dropped == 0)
    requires forall x: LogElement :: x.dropped == 0 ==> (x in now <==> x in logs && (!took || x != e))
    requires forall x :: x in logs ==> StemsFrom(before, x)
    ensures AccountedFor(before, now, if took then taken + [e] else taken)
  {
    if took {
      forall i | 0 <= i < |taken| ensures taken[i].sequence != e.sequence {
        var x := taken[i];
        assert x in taken && x in before && x !in logs;
        if x.sequence == e.sequence { SameNumber(before, x, e); }
      }
    }
  }

  lemma SameNumber(before: seq<LogElement>, x: LogElement, e: LogElement)
    requires Proper(before) && x in before && e in before && x.sequence == e.sequence
    ensures x == e
  {
    var i :| 0 <= i < |before| && before[i] == x;
    var j :| 0 <= j < |before| && before[j] == e;
  }

  // ---- What is at the front of its log ----

  ghost predicate Stems(before: seq<LogElement>, logs: seq<LogElement>) { forall k :: 0 <= k < |logs| ==> StemsFrom(before, logs[k]) }

  /** The next element is at the front exactly if no element of its log is kept before it. */
  lemma NextInFront(logs: seq<LogElement>, it: nat, st: Story, id: LogId)
    requires Proper(st.before) && Proper(logs) && Stems(st.before, logs) && Placed(logs, it, st) && it < |logs|
    ensures Seen(logs, it, st) < |st.before| && logs[it] == st.before[Seen(logs, it, st)] && IndexOf(st.before, logs[it].sequence) == Seen(logs, it, st)
    ensures InFront(st.before, logs[..it], logs[it], id) <==> NoneBefore(logs, it, id)
  {
    var before, m := st.before, Seen(logs, it, st);
    assert logs[it..][0] == before[m..][0];
    IndexIs(before, m);
    if NoneBefore(logs, it, id) {
      forall j | 0 <= j < m && before[j].logId == id ensures Absent(logs[..it], before[j].sequence) {
        forall k | 0 <= k < it ensures logs[k].sequence != before[j].sequence {
          assert StemsFrom(before, logs[k]);
          var i :| 0 <= i < |before| && SameSource(before[i], logs[k]);
        }
      }
    }
    if InFront(before, logs[..it], logs[it], id) {
      forall k | 0 <= k < it ensures logs[k].logId != id {
        assert StemsFrom(before, logs[k]) && logs[..it][k] == logs[k];
        var i :| 0 <= i < |before| && SameSource(before[i], logs[k]);
        if i >= m { assert logs[it..][i - m] == before[m..][i - m]; }
      }
    }
  }

  /** Being at the front does not depend on what comes later. */
  lemma FrontLeft(before: seq<LogElement>, logs: seq<LogElement>, now: seq<LogElement>, it: nat, from: nat, g: LogElement, id: LogId)
    requires Left(logs, now, it, from)
    ensures InFront(before, now[..it], g, id) <==> InFront(before, logs[..it], g, id)
  {
    forall s: nat ensures Absent(now[..it], s) <==> Absent(logs[..it], s) {
      assert forall j :: 0 <= j < it ==> now[..it][j].sequence == logs[..it][j].sequence;
    }
  }

  lemma FrontStayed(before: seq<LogElement>, logs: seq<LogElement>, now: seq<LogElement>, it: nat, m: nat, g: LogElement, id: LogId)
    requires Proper(before) && Stayed(logs, now, it) && m < |before| && before[m].sequence == logs[it].sequence && IndexOf(before, g.sequence) <= m
    ensures InFront(before, now[..it + 1], g, id) <==> InFront(before, logs[..it], g, id)
  {
    assert now[..it + 1] == logs[..it] + [now[it]];
    forall j | 0 <= j < IndexOf(before, g.sequence) ensures Absent(now[..it + 1], before[j].sequence) <==> Absent(logs[..it], before[j].sequence) {
      assert before[j].sequence != before[m].sequence;
      var kept := now[..it + 1];
      if Absent(logs[..it], before[j].sequence) {
        forall k | 0 <= k < |kept| ensures kept[k].sequence != before[j].sequence {
          if k < it { assert kept[k] == logs[..it][k]; }
        }
      }
      if Absent(now[..it + 1], before[j].sequence) {
        forall k | 0 <= k < it ensures logs[..it][k].sequence != before[j].sequence { assert now[..it + 1][k] == logs[..it][k]; }
      }
    }
  }

  // ---- One element further ----

  /** Where a round stands in the list at index `it`. */
  ghost predicate Along(logs: seq<LogElement>, it: nat, leading: bool, s: Sweep, st: Story)
  {
    && Proper(logs) && Proper(st.before) && Stems(st.before, logs) && Placed(logs, it, st) && AccountedFor(st.before, logs, st.taken)
    && ForCause(s, st.taken) && Clean(logs, st.from, it, s) && WellErased(logs, it, s, st) && leading == Leading(logs, it, s.id, st.lead)
  }

  function With(st: Story, e: LogElement, took: bool, erase: bool): Story
  {
    st.(taken := if took then st.taken + [e] else st.taken, erased := if erase then st.erased + [e] else st.erased)
  }

  lemma NextForCause(s: Sweep, taken: seq<LogElement>, e: LogElement)
    requires ForCause(s, taken) && Doomed(s, e) && (IsHigh(s, e) || !OutOfTime(e, s))
    ensures ForCause(s, taken + [e])
  {
  }

  /** The element at `it` leaves the list: a message is taken, and erased or squashed; a chatty element is erased or merged. */
  lemma AlongLeft(logs: seq<LogElement>, now: seq<LogElement>, it: nat, leading: bool, s: Sweep, st: Story, erase: bool)
    requires Along(logs, it, leading, s, st) && Left(logs, now, it, st.from) && Proper(now) && Stems(st.before, now)
    requires var e := logs[it];
      && e.logId == s.id && (erase ==> IsHigh(s, e) || leading)
      && (e.dropped == 0 ==> Doomed(s, e) && (IsHigh(s, e) || !OutOfTime(e, s)) && (erase <==> IsHigh(s, e) || leading))
    ensures Along(now, it, leading, s, With(st, logs[it], logs[it].dropped == 0, erase))
  {
    hide Proper, StemsFrom, Left, Placed, AccountedFor, ForCause, Clean, WellErased, Stems;
    LeftBound(logs, now, it, st.from);
    var e := logs[it];
    var tt := With(st, e, e.dropped == 0, erase);
    LeftPlaced(logs, now, it, st);
    PlacedWith(now, it, st, tt);
    LeftMessages(logs, now, it, st.from);
    LeftStems(st.before, logs);
    AtIs(logs, it);
    if e.dropped == 0 { NextForCause(s, st.taken, e); }
    NextAccounted(st.before, logs, now, e, st.taken, e.dropped == 0);
    LeftClean(logs, now, it, s, st.from);
    LeftErased(logs, now, it, leading, s, st, erase);
    LeftLeading(logs, now, it, s.id, st.from);
  }

  lemma LeftBound(logs: seq<LogElement>, now: seq<LogElement>, it: nat, from: nat)
    requires Left(logs, now, it, from)
    ensures from <= it < |logs| && |now| == |logs| - 1
  {
  }

  lemma StayedBound(logs: seq<LogElement>, now: seq<LogElement>, it: nat)
    requires Stayed(logs, now, it)
    ensures it < |logs| == |now|
  {
  }

  lemma AtIs(logs: seq<LogElement>, it: nat)
    requires it < |logs|
    ensures logs[it] in logs
  {
  }

  lemma LeftStems(before: seq<LogElement>, logs: seq<LogElement>)
    requires Stems(before, logs)
    ensures forall x :: x in logs ==> StemsFrom(before, x)
  {
  }

  lemma PlacedWith(logs: seq<LogElement>, it: nat, st: Story, tt: Story)
    requires Placed(logs, it, st) && tt.before == st.before && tt.from == st.from
    ensures Placed(logs, it, tt) && Seen(logs, it, tt) == Seen(logs, it, st)
  {
  }

  lemma LeftClean(logs: seq<LogElement>, now: seq<LogElement>, it: nat, s: Sweep, from: nat)
    requires Clean(logs, from, it, s) && Left(logs, now, it, from)
    ensures Clean(now, from, it, s)
  {
  }

  lemma LeftLeading(logs: seq<LogElement>, now: seq<LogElement>, it: nat, id: LogId, from: nat)
    requires Left(logs, now, it, from)
    ensures it <= |now| && (NoneBefore(now, it, id) <==> NoneBefore(logs, it, id))
  {
    assert forall j :: 0 <= j < it ==> now[j].logId == logs[j].logId;
  }

  lemma LeftErased(logs: seq<LogElement>, now: seq<LogElement>, it: nat, leading: bool, s: Sweep, st: Story, erase: bool)
    requires Proper(st.before) && Proper(logs) && Stems(st.before, logs) && Placed(logs, it, st) && Left(logs, now, it, st.from)
    requires WellErased(logs, it, s, st) && leading == Leading(logs, it, s.id, st.lead)
    requires var e := logs[it];
      (erase ==> IsHigh(s, e) || leading) && (e.dropped == 0 ==> (erase <==> IsHigh(s, e) || leading))
    ensures it <= |now| && WellErased(now, it, s, With(st, logs[it], logs[it].dropped == 0, erase))
  {
    hide Left, Placed, Proper, Stems, InFront, WellErased;
    LeftBound(logs, now, it, st.from);
    var e := logs[it];
    LeftPlaced(logs, now, it, st);
    NextInFront(logs, it, st, s.id);
    forall g: LogElement ensures Goes(s, st, now[..it], g) <==> Goes(s, st, logs[..it], g) { FrontLeft(st.before, logs, now, it, st.from, g, s.id); }
    ErasedNext(logs, now, it, it, s, st, e, e.dropped == 0, erase);
  }

  /** One more message taken or element erased, the one that was next. */
  lemma ErasedNext(logs: seq<LogElement>, now: seq<LogElement>, it: nat, next: nat, s: Sweep, st: Story, e: LogElement, took: bool, erase: bool)
    requires it <= |logs| && next <= |now| && WellErased(logs, it, s, st) && e in st.before
    requires IndexOf(st.before, e.sequence) == Seen(logs, it, st) && Seen(now, next, st) == Seen(logs, it, st) + 1
    requires forall g: LogElement | IndexOf(st.before, g.sequence) <= Seen(logs, it, st) :: Goes(s, st, now[..next], g) <==> Goes(s, st, logs[..it], g)
    requires (erase ==> Goes(s, st, logs[..it], e)) && (took ==> (erase <==> Goes(s, st, logs[..it], e)))
    ensures WellErased(now, next, s, With(st, e, took, erase))
  {
    hide InFront;
    var tt := With(st, e, took, erase);
    assert e !in st.erased && e !in st.taken;
    forall g: LogElement ensures Goes(s, tt, now[..next], g) <==> Goes(s, st, now[..next], g) { }
    forall g | g in tt.erased
      ensures g in tt.before && IndexOf(tt.before, g.sequence) < Seen(now, next, tt) && Goes(s, tt, now[..next], g)
    {
      assert g in st.erased || g == e;
    }
    forall x | x in tt.taken
      ensures IndexOf(tt.before, x.sequence) < Seen(now, next, tt) && (x in tt.erased <==> Goes(s, tt, now[..next], x))
    {
      assert x in st.taken || x == e;
    }
  }

  /** The element at `it` stays and is passed; a message that is squashed is taken. */
  lemma AlongStayed(logs: seq<LogElement>, now: seq<LogElement>, it: nat, leading: bool, s: Sweep, st: Story)
    requires Along(logs, it, leading, s, st) && Stayed(logs, now, it) && Proper(now) && Stems(st.before, now)
    requires var e := logs[it];
      && !Needed(e, s.limit) && (e.logId == s.id ==> !OutOfTime(e, s))
      && if now[it] == e then !Doomed(s, e) else Doomed(s, e) && !IsHigh(s, e) && !leading
    ensures Along(now, it + 1, leading && logs[it].logId != s.id, s, With(st, logs[it], now[it] != logs[it], false))
  {
    hide Proper, StemsFrom, Stayed, Placed, AccountedFor, ForCause, Clean, WellErased, Stems;
    StayedBound(logs, now, it);
    var e := logs[it];
    var tt := With(st, e, now[it] != e, false);
    StayedPlaced(logs, now, it, st);
    PlacedWith(now, it + 1, st, tt);
    StayedMessages(logs, now, it);
    LeftStems(st.before, logs);
    AtIs(logs, it);
    if now[it] != e { NextForCause(s, st.taken, e); }
    NextAccounted(st.before, logs, now, e, st.taken, now[it] != e);
    StayedClean(logs, now, it, s, st.from);
    StayedErased(logs, now, it, leading, s, st);
    StayedLeading(logs, now, it, s.id);
  }

  lemma StayedClean(logs: seq<LogElement>, now: seq<LogElement>, it: nat, s: Sweep, from: nat)
    requires Clean(logs, from, it, s) && Stayed(logs, now, it)
    requires var e := logs[it]; !Needed(e, s.limit) && (e.logId == s.id ==> !OutOfTime(e, s)) && (now[it] == e ==> !Doomed(s, e))
    ensures Clean(now, from, it + 1, s)
  {
    forall j | from <= j < it + 1
      ensures !Doomed(s, now[j]) && !Needed(now[j], s.limit) && (now[j].logId == s.id ==> !OutOfTime(now[j], s))
    {
      StayedAt(logs, now, it, j);
    }
  }

  lemma StayedLeading(logs: seq<LogElement>, now: seq<LogElement>, it: nat, id: LogId)
    requires Stayed(logs, now, it)
    ensures NoneBefore(now, it + 1, id) <==> NoneBefore(logs, it, id) && logs[it].logId != id
  {
    forall j | 0 <= j <= it ensures now[j].logId == logs[j].logId { StayedAt(logs, now, it, j); }
  }

  lemma StayedErased(logs: seq<LogElement>, now: seq<LogElement>, it: nat, leading: bool, s: Sweep, st: Story)
    requires Proper(st.before) && Proper(logs) && Stems(st.before, logs) && Placed(logs, it, st) && Stayed(logs, now, it)
    requires WellErased(logs, it, s, st) && leading == Leading(logs, it, s.id, st.lead)
    requires now[it] != logs[it] ==> !IsHigh(s, logs[it]) && !leading
    ensures WellErased(now, it + 1, s, With(st, logs[it], now[it] != logs[it], false))
  {
    hide Stayed, Placed, Proper, Stems, InFront, WellErased;
    StayedBound(logs, now, it);
    var e, m := logs[it], Seen(logs, it, st);
    StayedPlaced(logs, now, it, st);
    NextInFront(logs, it, st, s.id);
    forall g: LogElement | IndexOf(st.before, g.sequence) <= m ensures Goes(s, st, now[..it + 1], g) <==> Goes(s, st, logs[..it], g) {
      FrontStayed(st.before, logs, now, it, m, g, s.id);
    }
    ErasedNext(logs, now, it, it + 1, s, st, e, now[it] != e, false);
  }

  // ---- Merging ----

  /** What is remembered of chatty elements is right and they are merged where they can be. */
  predicate Memory(logs: seq<LogElement>, from: nat, it: nat, last: map<nat, nat>, s: Sweep, erased: seq<LogElement>)
    requires it <= |logs|
  {
    Remembered(logs, from, it, last, s, erased) && Compact(logs, from, it, s, erased)
  }

  lemma NothingRemembered(logs: seq<LogElement>, from: nat, s: Sweep)
    requires from <= |logs|
    ensures Memory(logs, from, from, map[], s, [])
  {
  }

  /** What lies before `it` is all that matters. */
  lemma MemoryPrefix(logs: seq<LogElement>, now: seq<LogElement>, from: nat, it: nat, last: map<nat, nat>, s: Sweep, erased: seq<LogElement>)
    requires it <= |logs| && it <= |now| && now[..it] == logs[..it] && Memory(logs, from, it, last, s, erased)
    ensures Memory(now, from, it, last, s, erased)
  {
    hide Forgettable;
    forall j | 0 <= j < it ensures now[j] == logs[j] { assert now[..it][j] == logs[..it][j]; }
    forall j, k | 0 <= j < k <= it && k < |logs| && k < |now| ensures LastOfSource(now, j, k, s.id) <==> LastOfSource(logs, j, k, s.id) { }
  }

  /** Reportable sources, and those of which a high priority rule takes an element, may be forgotten. */
  lemma MemoryForgot(logs: seq<LogElement>, from: nat, it: nat, last: map<nat, nat>, fewer: map<nat, nat>, s: Sweep, erased: seq<LogElement>, more: seq<LogElement>)
    requires Proper(logs) && it <= |logs| && Memory(logs, from, it, last, s, erased) && fewer.Keys <= last.Keys && forall g :: g in erased ==> g in more
    requires forall k :: k in last ==> if k in fewer then fewer[k] == last[k] else Reportable(logs, last[k]) || Spoiled(s, more, k)
    ensures Memory(logs, from, it, fewer, s, more)
  {
    hide IsHigh;
    assert forall e :: Forgettable(e, s, erased) ==> Forgettable(e, s, more);
    forall j | from <= j < it && LastOfSource(logs, j, it, s.id)
      ensures var key := SourceKey(logs[j]); if key in fewer then fewer[key] == logs[j].sequence else Forgettable(logs[j], s, more)
    {
      IndexIs(logs, j);
    }
  }

  /** Passing an element that is not chatty, or of another log. */
  lemma MemoryPassed(logs: seq<LogElement>, from: nat, it: nat, last: map<nat, nat>, s: Sweep, erased: seq<LogElement>)
    requires it < |logs| && Memory(logs, from, it, last, s, erased) && !Chatty(logs[it], s.id)
    ensures Memory(logs, from, it + 1, last, s, erased)
  {
    hide Forgettable;
    forall j | from <= j < it && LastOfSource(logs, j, it + 1, s.id) ensures LastOfSource(logs, j, it, s.id) { }
  }

  /** A chatty element merged into the one remembered. */
  lemma MemoryMerged(logs: seq<LogElement>, from: nat, f: nat, it: nat, last: map<nat, nat>, s: Sweep, erased: seq<LogElement>)
    requires Proper(logs) && from <= f < it < |logs| && Memory(logs, from, it, last, s, erased) && Chatty(logs[f], s.id) && Chatty(logs[it], s.id)
    ensures Memory(Merged(logs, f, it), from, it, last, s, erased)
  {
    var now := Merged(logs, f, it);
    assert forall j :: 0 <= j < it ==> now[j] == if j == f then SetDropped(logs[f], logs[f].dropped + logs[it].dropped) else logs[j];
    GrownMemory(logs, now, from, it, last, s, erased);
  }

  /** Chatty elements may stand for more. */
  lemma GrownMemory(logs: seq<LogElement>, now: seq<LogElement>, from: nat, it: nat, last: map<nat, nat>, s: Sweep, erased: seq<LogElement>)
    requires it <= |logs| && it <= |now| && (forall j :: 0 <= j < it ==> now[j] == logs[j] || Grown(logs[j], now[j]))
    requires Memory(logs, from, it, last, s, erased)
    ensures Memory(now, from, it, last, s, erased)
  {
    hide Spoiled, LastOfSource, Grown;
    GrownSame(logs, now, it, s, erased);
  }

  lemma GrownSame(logs: seq<LogElement>, now: seq<LogElement>, it: nat, s: Sweep, erased: seq<LogElement>)
    requires it <= |logs| && it <= |now| && (forall j :: 0 <= j < it ==> now[j] == logs[j] || Grown(logs[j], now[j]))
    ensures forall i :: 0 <= i < it ==>
      && (Chatty(now[i], s.id) <==> Chatty(logs[i], s.id)) && SourceKey(now[i]) == SourceKey(logs[i]) && now[i].sequence == logs[i].sequence
      && now[i].dropped >= logs[i].dropped && (Forgettable(logs[i], s, erased) ==> Forgettable(now[i], s, erased))
    ensures forall j, k :: 0 <= j < k <= it ==> (LastOfSource(now, j, k, s.id) <==> LastOfSource(logs, j, k, s.id))
  {
    hide Spoiled;
    forall i | 0 <= i < it ensures (Chatty(now[i], s.id) <==> Chatty(logs[i], s.id)) && SourceKey(now[i]) == SourceKey(logs[i]) { }
    hide Chatty, SourceKey, Grown;
  }

  /** A chatty element that stays is remembered; it was not merged because its count did not fit, or the last one was forgotten. */
  lemma MemoryKept(logs: seq<LogElement>, from: nat, it: nat, last: map<nat, nat>, s: Sweep, erased: seq<LogElement>)
    requires Proper(logs) && it < |logs| && Memory(logs, from, it, last, s, erased) && Chatty(logs[it], s.id)
    requires SourceKey(logs[it]) in last ==>
      var f := IndexOf(logs, last[SourceKey(logs[it])]); f < it && logs[f].dropped + logs[it].dropped > USHRT_MAX
    ensures Memory(logs, from, it + 1, last[SourceKey(logs[it]) := logs[it].sequence], s, erased)
  {
    hide Forgettable;
    var key := SourceKey(logs[it]);
    forall j | from <= j < it + 1 && LastOfSource(logs, j, it + 1, s.id)
      ensures j == it || (LastOfSource(logs, j, it, s.id) && SourceKey(logs[j]) != key)
    {
    }
    forall j, k | from <= j < k < it + 1 && LastOfSource(logs, j, k, s.id) && Chatty(logs[k], s.id) && SourceKey(logs[j]) == SourceKey(logs[k])
      ensures logs[j].dropped + logs[k].dropped > USHRT_MAX || Forgettable(logs[j], s, erased)
    {
      if k == it && key in last { IndexIs(logs, j); }
    }
  }

  // ---- Watermarks ----

  /** What the worst offender's watermark is set to. */
  predicate Markable(e: LogElement, s: Sweep)
  {
    Chatty(e, s.id) && if s.o.worstPid == 0 then Key(e) == s.o.worst else e.pid == s.o.worstPid
  }

  predicate LastMarkable(logs: seq<LogElement>, j: nat, it: nat, s: Sweep)
    requires j < it <= |logs|
  {
    Markable(logs[j], s) && forall k :: j < k < it ==> !Markable(logs[k], s)
  }

  predicate MarkIs(marks: seq<map<int, nat>>, pidMarks: seq<map<nat, nat>>, s: Sweep, n: nat)
    requires |marks| == |pidMarks| == LOG_ID_MAX
  {
    if s.o.worstPid == 0 then s.o.worst in marks[s.id] && marks[s.id][s.o.worst] == n
    else s.o.worstPid in pidMarks[s.id] && pidMarks[s.id][s.o.worstPid] == n
  }

  /** Outside a mandatory collection, the watermark of the worst offender is its last chatty element visited. */
  predicate MarkedUp(logs: seq<LogElement>, from: nat, it: nat, s: Sweep, marks: seq<map<int, nat>>, pidMarks: seq<map<nat, nat>>)
    requires it <= |logs| && |marks| == |pidMarks| == LOG_ID_MAX
  {
    !s.gc ==> forall j :: from <= j < it && LastMarkable(logs, j, it, s) ==> MarkIs(marks, pidMarks, s, logs[j].sequence)
  }

  /** Every watermark but those to element n is as it was. */
  predicate MarksKept(m0: seq<map<int, nat>>, p0: seq<map<nat, nat>>, m1: seq<map<int, nat>>, p1: seq<map<nat, nat>>, n: nat)
    requires |m0| == |p0| == |m1| == |p1| == LOG_ID_MAX
  {
    && (forall id: LogId, k :: k in m0[id] && m0[id][k] != n ==> k in m1[id] && m1[id][k] == m0[id][k])
    && (forall id: LogId, k :: k in p0[id] && p0[id][k] != n ==> k in p1[id] && p1[id][k] == p0[id][k])
  }

  lemma MarkedLeft(logs: seq<LogElement>, now: seq<LogElement>, from: nat, it: nat, s: Sweep,
                   m0: seq<map<int, nat>>, p0: seq<map<nat, nat>>, m1: seq<map<int, nat>>, p1: seq<map<nat, nat>>)
    requires |m0| == |p0| == |m1| == |p1| == LOG_ID_MAX && Proper(logs)
    requires Left(logs, now, it, from) && MarkedUp(logs, from, it, s, m0, p0) && MarksKept(m0, p0, m1, p1, logs[it].sequence)
    ensures it <= |now| && MarkedUp(now, from, it, s, m1, p1)
  {
    assert forall j :: 0 <= j < it ==> (Markable(now[j], s) <==> Markable(logs[j], s)) && now[j].sequence == logs[j].sequence;
    forall j | from <= j < it && LastMarkable(now, j, it, s) ensures LastMarkable(logs, j, it, s) && logs[j].sequence != logs[it].sequence { }
  }

  /** An element that stays: if it is one to be marked, it is. */
  lemma MarkedStayed(logs: seq<LogElement>, now: seq<LogElement>, from: nat, it: nat, s: Sweep,
                     m0: seq<map<int, nat>>, p0: seq<map<nat, nat>>, m1: seq<map<int, nat>>, p1: seq<map<nat, nat>>)
    requires |m0| == |p0| == |m1| == |p1| == LOG_ID_MAX
    requires Stayed(logs, now, it) && MarkedUp(logs, from, it, s, m0, p0)
    requires if Markable(now[it], s) then !s.gc ==> MarkIs(m1, p1, s, now[it].sequence)
             else forall n :: MarkIs(m0, p0, s, n) ==> MarkIs(m1, p1, s, n)
    ensures MarkedUp(now, from, it + 1, s, m1, p1)
  {
    forall j | 0 <= j < it ensures now[j] == logs[j] { StayedAt(logs, now, it, j); }
    forall j | from <= j < it + 1 && LastMarkable(now, j, it + 1, s) ensures j == it || (LastMarkable(logs, j, it, s) && !Markable(now[it], s)) { }
  }

  // ---- How far a round goes ----

  /** What is left of the worst offender's size, in a size_t, after these messages of it. */
  function Spent(s: Sweep, taken: seq<LogElement>): int
  {
    if taken == [] then s.o.sizes
    else
      var before, e := Spent(s, taken[..|taken| - 1]), taken[|taken| - 1];
      if Key(e) == s.o.worst then (before - |e.msg|) % SIZE_T else before
  }

  /** With the last of these the offender was no longer the worst. */
  predicate NoLongerWorst(s: Sweep, taken: seq<LogElement>)
  {
    taken != [] && Key(taken[|taken| - 1]) == s.o.worst && Spent(s, taken[..|taken| - 1]) < s.o.second
  }

  predicate HasWorst(s: Sweep, taken: seq<LogElement>) { exists i :: 0 <= i < |taken| && Key(taken[i]) == s.o.worst }

  /** The locals of a round that goes on. */
  predicate Going(c: Cursor, s: Sweep, st: Story)
  {
    && st.rows - c.left == |st.taken| && c.left > 0 && c.sizes == Spent(s, st.taken) && (c.kick <==> HasWorst(s, st.taken))
    && forall k :: 0 < k <= |st.taken| ==> !NoLongerWorst(s, st.taken[..k])
  }

  /**
   How a round ended: at the end of the list, out of rows, with the offender no longer the worst, at an element
   a reader needs or at a message too old or too new, and never later than that. Each row used up took a message,
   but for the last one if that came to a message of the offender. It asks for another round if it took one of those.
   */
  predicate Ended(logs: seq<LogElement>, it: nat, left: nat, kick: bool, s: Sweep, st: Story)
  {
    && it <= |logs| && left <= st.rows
    && (forall k :: 0 < k < |st.taken| ==> !NoLongerWorst(s, st.taken[..k]))
    && (left > 0 ==> st.rows - left == |st.taken| && (kick <==> HasWorst(s, st.taken)))
    && (left == 0 ==> st.rows == |st.taken| || (st.rows == |st.taken| + 1 && it < |logs| && Doomed(s, logs[it]) && !IsHigh(s, logs[it])))
    && (it == |logs| || left == 0 || NoLongerWorst(s, st.taken)
        || Needed(logs[it], s.limit) || (logs[it].logId == s.id && OutOfTime(logs[it], s)))
  }

  /** One more message taken. */
  lemma OneMoreTaken(c: Cursor, s: Sweep, st: Story, e: LogElement)
    requires Going(c, s, st)
    ensures var more := st.taken + [e];
      && st.rows - (c.left - 1) == |more| && (HasWorst(s, more) <==> c.kick || Key(e) == s.o.worst)
      && (forall k :: 0 < k < |more| ==> !NoLongerWorst(s, more[..k]))
      && (NoLongerWorst(s, more) <==> Key(e) == s.o.worst && c.sizes < s.o.second)
      && Spent(s, more) == if Key(e) == s.o.worst then (c.sizes - |e.msg|) % SIZE_T else c.sizes
  {
    var more := st.taken + [e];
    assert more[..|more| - 1] == st.taken;
    forall k | 0 < k < |more| ensures !NoLongerWorst(s, more[..k]) { assert more[..k] == st.taken[..k]; }
    if HasWorst(s, more) && Key(e) != s.o.worst {
      var i :| 0 <= i < |more| && Key(more[i]) == s.o.worst;
      assert st.taken[i] == more[i];
    }
    if HasWorst(s, st.taken) {
      var i :| 0 <= i < |st.taken| && Key(st.taken[i]) == s.o.worst;
      assert more[i] == st.taken[i];
    }
    assert more[|st.taken|] == e;
  }

  lemma AllOfTaken(s: Sweep, taken: seq<LogElement>)
    ensures taken[..|taken|] == taken
  {
  }

  // ---- One step of a round ----

  /** Where a round stands, with what it remembers and the watermarks. */
  ghost predicate Underway(logs: seq<LogElement>, marks: seq<map<int, nat>>, pidMarks: seq<map<nat, nat>>, c: Cursor, s: Sweep, st: Story)
  {
    && |marks| == |pidMarks| == LOG_ID_MAX && st.from <= c.it <= |logs| && Along(logs, c.it, c.leading, s, st)
    && Memory(logs, st.from, c.it, c.last, s, st.erased) && MarkedUp(logs, st.from, c.it, s, marks, pidMarks)
  }

  lemma UnderwayStarts(logs: seq<LogElement>, marks: seq<map<int, nat>>, pidMarks: seq<map<nat, nat>>, c: Cursor, s: Sweep)
    requires |marks| == |pidMarks| == LOG_ID_MAX && Proper(logs) && c.it <= |logs| && c.last == map[] && (c.leading ==> c.it == FirstOf(logs, s.id))
    ensures Underway(logs, marks, pidMarks, c, s, Story(logs, c.it, c.leading, c.left, [], []))
  {
    hide Proper, Memory, MarkedUp, Along;
    AlongStarts(logs, c.it, c.leading, c.left, s);
    NothingRemembered(logs, c.it, s);
    NothingMarked(logs, c.it, s, marks, pidMarks);
  }

  lemma AlongStarts(logs: seq<LogElement>, it: nat, leading: bool, rows: nat, s: Sweep)
    requires Proper(logs) && it <= |logs| && (leading ==> it == FirstOf(logs, s.id))
    ensures Along(logs, it, leading, s, Story(logs, it, leading, rows, [], []))
  {
    hide Proper, Goes, Stems, AccountedFor, ForCause, Clean, NoneBefore;
    var st := Story(logs, it, leading, rows, [], []);
    AllStem(logs);
    NothingTaken(logs, it, s);
    assert leading ==> NoneBefore(logs, it, s.id) by { assert leading ==> NoneBefore(logs, FirstOf(logs, s.id), s.id); }
  }

  lemma NothingTaken(logs: seq<LogElement>, it: nat, s: Sweep)
    requires it <= |logs|
    ensures AccountedFor(logs, logs, []) && ForCause(s, []) && Clean(logs, it, it, s)
  {
  }

  lemma AllStem(logs: seq<LogElement>)
    ensures Stems(logs, logs)
  {
    forall k | 0 <= k < |logs| ensures StemsFrom(logs, logs[k]) { assert SameSource(logs[k], logs[k]); }
  }

  lemma NothingMarked(logs: seq<LogElement>, from: nat, s: Sweep, marks: seq<map<int, nat>>, pidMarks: seq<map<nat, nat>>)
    requires from <= |logs| && |marks| == |pidMarks| == LOG_ID_MAX
    ensures MarkedUp(logs, from, from, s, marks, pidMarks)
  {
  }

  /**
   The element leaves without a trace. What is no longer remembered was reportable, or of the same source as the
   element, a chatty one a high priority rule matches.
   */
  lemma UnderwayErased(logs: seq<LogElement>, m0: seq<map<int, nat>>, p0: seq<map<nat, nat>>, m1: seq<map<int, nat>>, p1: seq<map<nat, nat>>,
                       c: Cursor, last: map<nat, nat>, s: Sweep, st: Story)
    requires Underway(logs, m0, p0, c, s, st) && c.it < |logs| && MayForget(logs, c, last, s) && |m1| == |p1| == LOG_ID_MAX && MarksKept(m0, p0, m1, p1, logs[c.it].sequence)
    requires Proper(RemoveAt(logs, c.it)) && Stems(st.before, RemoveAt(logs, c.it))
    requires var e := logs[c.it];
      && e.logId == s.id && (IsHigh(s, e) || c.leading) && (e.dropped == 0 ==> Doomed(s, e) && (IsHigh(s, e) || !OutOfTime(e, s)))
    ensures Underway(RemoveAt(logs, c.it), m1, p1, c.(last := last), s, With(st, logs[c.it], logs[c.it].dropped == 0, true))
  {
    hide Along, Memory, MarkedUp, MarksKept, Proper, Stems, Left, RemoveAt, Doomed, IsHigh, OutOfTime, MayForget, Spoiled, Reportable;
    var now := RemoveAt(logs, c.it);
    RemovedLeft(logs, c.it, st.from);
    AlongProper(logs, c.it, c.leading, s, st);
    AlongLeft(logs, now, c.it, c.leading, s, st, true);
    var more := st.erased + [logs[c.it]];
    MayBeForgotten(logs, c, last, s, more);
    MemoryForgot(logs, st.from, c.it, c.last, last, s, st.erased, more);
    MemoryPrefix(logs, now, st.from, c.it, last, s, more);
    MarkedLeft(logs, now, st.from, c.it, s, m0, p0, m1, p1);
  }

  predicate MayForget(logs: seq<LogElement>, c: Cursor, last: map<nat, nat>, s: Sweep)
    requires c.it < |logs|
  {
    && last.Keys <= c.last.Keys
    && forall k :: k in c.last ==>
      if k in last then last[k] == c.last[k]
      else Reportable(logs, c.last[k]) || (k == SourceKey(logs[c.it]) && logs[c.it].dropped > 0 && IsHigh(s, logs[c.it]))
  }

  lemma MayBeForgotten(logs: seq<LogElement>, c: Cursor, last: map<nat, nat>, s: Sweep, more: seq<LogElement>)
    requires c.it < |logs| && MayForget(logs, c, last, s) && logs[c.it] in more
    ensures last.Keys <= c.last.Keys
    ensures forall k :: k in c.last ==> if k in last then last[k] == c.last[k] else Reportable(logs, c.last[k]) || Spoiled(s, more, k)
  {
  }

  lemma AlongProper(logs: seq<LogElement>, it: nat, leading: bool, s: Sweep, st: Story)
    requires Along(logs, it, leading, s, st)
    ensures Proper(logs)
  {
  }

  lemma RemovedLeft(logs: seq<LogElement>, it: nat, from: nat)
    requires from <= it < |logs|
    ensures Left(logs, RemoveAt(logs, it), it, from) && RemoveAt(logs, it)[..it] == logs[..it]
  {
  }

  /** The element's count moves over to element f, an earlier chatty one; a message has become a chatty element in `mid`. */
  lemma UnderwayMerged(logs: seq<LogElement>, mid: seq<LogElement>, f: nat, m0: seq<map<int, nat>>, p0: seq<map<nat, nat>>,
                       m1: seq<map<int, nat>>, p1: seq<map<nat, nat>>, c: Cursor, s: Sweep, st: Story)
    requires Underway(logs, m0, p0, c, s, st) && st.from <= f < c.it < |logs| && |m1| == |p1| == LOG_ID_MAX
    requires MarksKept(m0, p0, m1, p1, logs[c.it].sequence) && (mid == logs || Squashed(logs, mid, c.it)) && Proper(mid)
    requires Proper(Merged(mid, f, c.it)) && Stems(st.before, Merged(mid, f, c.it)) && Chatty(mid[f], s.id) && Chatty(mid[c.it], s.id)
    requires var e := logs[c.it]; e.dropped == 0 ==> Doomed(s, e) && !IsHigh(s, e) && !OutOfTime(e, s) && !c.leading
    ensures Underway(Merged(mid, f, c.it), m1, p1, c, s, With(st, logs[c.it], logs[c.it].dropped == 0, false))
  {
    hide Along, Memory, MarkedUp, MarksKept, Proper, Stems, Left, RemoveAt, Doomed, IsHigh, OutOfTime, Merged, Chatty;
    var now := Merged(mid, f, c.it);
    MergedLeft(logs, mid, f, c.it, st.from, s.id);
    AlongProper(logs, c.it, c.leading, s, st);
    AlongLeft(logs, now, c.it, c.leading, s, st, false);
    assert mid[..c.it] == logs[..c.it];
    MemoryPrefix(logs, mid, st.from, c.it, c.last, s, st.erased);
    MemoryMerged(mid, st.from, f, c.it, c.last, s, st.erased);
    MarkedLeft(logs, now, st.from, c.it, s, m0, p0, m1, p1);
  }

  /** A message has become a chatty element of count 1. */
  predicate Squashed(logs: seq<LogElement>, mid: seq<LogElement>, it: nat)
  {
    it < |logs| && logs[it].dropped == 0 && mid == logs[it := SetDropped(logs[it], 1)]
  }

  lemma MergedLeft(logs: seq<LogElement>, mid: seq<LogElement>, f: nat, it: nat, from: nat, id: LogId)
    requires from <= f < it < |logs| && (mid == logs || Squashed(logs, mid, it)) && Chatty(mid[f], id) && Chatty(mid[it], id)
    ensures Left(logs, Merged(mid, f, it), it, from) && logs[it].logId == id
  {
    var now := Merged(mid, f, it);
    assert forall j :: 0 <= j < |now| ==> now[j] == if j == f then SetDropped(mid[f], mid[f].dropped + mid[it].dropped) else if j < it then mid[j] else mid[j + 1];
  }

  /** The element stays and is passed: unchanged, or squashed. */
  lemma UnderwayStayed(logs: seq<LogElement>, now: seq<LogElement>, m0: seq<map<int, nat>>, p0: seq<map<nat, nat>>,
                       m1: seq<map<int, nat>>, p1: seq<map<nat, nat>>, c: Cursor, last: map<nat, nat>, s: Sweep, st: Story)
    requires Underway(logs, m0, p0, c, s, st) && c.it < |logs| && |m1| == |p1| == LOG_ID_MAX && (now == logs || Squashed(logs, now, c.it))
    requires Proper(now) && Stems(st.before, now) && Memory(now, st.from, c.it + 1, last, s, st.erased)
    requires if Markable(now[c.it], s) then !s.gc ==> MarkIs(m1, p1, s, now[c.it].sequence)
             else forall n :: MarkIs(m0, p0, s, n) ==> MarkIs(m1, p1, s, n)
    requires var e := logs[c.it];
      && !Needed(e, s.limit) && (e.logId == s.id ==> !OutOfTime(e, s))
      && if now[c.it] == e then !Doomed(s, e) else Doomed(s, e) && !IsHigh(s, e) && !c.leading
    ensures var d := c.(it := c.it + 1, last := last, leading := c.leading && logs[c.it].logId != s.id);
      Underway(now, m1, p1, d, s, With(st, logs[c.it], now[c.it] != logs[c.it], false))
  {
    hide Along, Memory, MarkedUp, MarkIs, Markable, Proper, Stems, Stayed, Doomed, IsHigh, OutOfTime;
    Stays(logs, now, c.it);
    AlongStayed(logs, now, c.it, c.leading, s, st);
    MarkedStayed(logs, now, st.from, c.it, s, m0, p0, m1, p1);
  }

  lemma Stays(logs: seq<LogElement>, now: seq<LogElement>, it: nat)
    requires it < |logs| && (now == logs || Squashed(logs, now, it))
    ensures Stayed(logs, now, it)
  {
  }

  lemma StillGoing(c: Cursor, d: Cursor, s: Sweep, st: Story, tt: Story)
    requires Going(c, s, st) && d.left == c.left && d.sizes == c.sizes && d.kick == c.kick && tt.rows == st.rows && tt.taken == st.taken
    ensures Going(d, s, tt)
  {
  }

  /** Here a round may end whatever it has taken. */
  lemma GoingEnds(logs: seq<LogElement>, c: Cursor, s: Sweep, st: Story)
    requires Going(c, s, st) && c.it <= |logs|
    requires c.it == |logs| || Needed(logs[c.it], s.limit) || (logs[c.it].logId == s.id && OutOfTime(logs[c.it], s))
    ensures Ended(logs, c.it, c.left, c.kick, s, st)
  {
  }

  // ---- Rounds ----

  /** A finished round: what it went by, what it did, the list and the watermarks before and after, and where it ended. */
  datatype PastRound = PastRound(s: Sweep, st: Story, m0: seq<map<int, nat>>, p0: seq<map<nat, nat>>,
                         after: seq<LogElement>, m1: seq<map<int, nat>>, p1: seq<map<nat, nat>>, it: nat, left: nat, kick: bool)

  /** It begins at the offender's watermark, if there is one and no collection is due, or else at the oldest element of the log. */
  predicate Begins(s: Sweep, st: Story, marks: seq<map<int, nat>>, pidMarks: seq<map<nat, nat>>)
    requires |marks| == |pidMarks| == LOG_ID_MAX
  {
    if !s.gc && s.o.worst != -1 && s.o.worstPid != 0 && s.o.worstPid in pidMarks[s.id] then
      !st.lead && st.from == IndexOf(st.before, pidMarks[s.id][s.o.worstPid])
    else if !s.gc && s.o.worst != -1 && s.o.worst in marks[s.id] then
      !st.lead && st.from == IndexOf(st.before, marks[s.id][s.o.worst])
    else
      st.lead && st.from == FirstOf(st.before, s.id)
  }

  ghost predicate RoundDone(r: PastRound)
  {
    && |r.m0| == |r.p0| == |r.m1| == |r.p1| == LOG_ID_MAX
    && Begins(r.s, r.st, r.m0, r.p0) && Trimmed(r.st.before, r.after, r.s.id, r.s.limit, r.st.erased)
    && r.it <= |r.after| && Along(r.after, r.it, Leading(r.after, r.it, r.s.id, r.st.lead), r.s, r.st)
    && Compact(r.after, r.st.from, r.it, r.s, r.st.erased) && MarkedUp(r.after, r.st.from, r.it, r.s, r.m1, r.p1)
    && Ended(r.after, r.it, r.left, r.kick, r.s, r.st)
  }

  /** What a first pass is given. */
  datatype Job = Job(id: LogId, limit: Option<nat>, rows: nat, offenders: nat -> Offender, high: Option<LogElement -> bool>, worstUid: bool)

  function SweepFor(j: Job, logs: seq<LogElement>, left: nat): Sweep
  {
    Sweep(j.id, j.limit, j.offenders(left), j.high, left <= 1, if |logs| > 0 then logs[|logs| - 1].realtime else 0)
  }

  /** Something to go by: an offender or a high priority rule. */
  predicate Called(j: Job, left: nat) { j.offenders(left).worst != -1 || j.high.Some? }

  predicate AsksForMore(j: Job, rs: seq<PastRound>) { rs == [] || (rs[|rs| - 1].kick && j.worstUid) }

  /** The list and the watermarks, and the rows left to prune. */
  datatype Stage = Stage(logs: seq<LogElement>, marks: seq<map<int, nat>>, pidMarks: seq<map<nat, nat>>, left: nat)

  function StageBefore(r: PastRound): Stage { Stage(r.st.before, r.m0, r.p0, r.st.rows) }
  function StageAfter(r: PastRound): Stage { Stage(r.after, r.m1, r.p1, r.left) }

  /** One round after another, each asked for by the one before it. */
  ghost predicate Rounds(rs: seq<PastRound>, j: Job, a: Stage, b: Stage)
  {
    if rs == [] then a == b
    else
      var before, r := rs[..|rs| - 1], rs[|rs| - 1];
      && Rounds(before, j, a, StageBefore(r)) && AsksForMore(j, before) && RoundDone(r) && StageAfter(r) == b
      && r.st.rows > 0 && Called(j, r.st.rows) && r.s == SweepFor(j, r.st.before, r.st.rows)
  }

  /** The first pass: rounds until no rows are left, there is nothing to go by, or the last round does not ask for more. */
  ghost predicate FirstPassDone(rs: seq<PastRound>, j: Job, a: Stage, b: Stage)
  {
    Rounds(rs, j, a, b) && a.left == j.rows && (b.left == 0 || !Called(j, b.left) || !AsksForMore(j, rs))
  }

  lemma RoundsNext(rs: seq<PastRound>, j: Job, a: Stage, r: PastRound)
    requires Rounds(rs, j, a, StageBefore(r)) && AsksForMore(j, rs) && RoundDone(r)
    requires r.st.rows > 0 && Called(j, r.st.rows) && r.s == SweepFor(j, r.st.before, r.st.rows)
    ensures Rounds(rs + [r], j, a, StageAfter(r))
  {
    assert (rs + [r])[..|rs|] == rs;
  }

  function AllErased(rs: seq<PastRound>): seq<LogElement>
  {
    if rs == [] then [] else AllErased(rs[..|rs| - 1]) + rs[|rs| - 1].st.erased
  }

  lemma AllErasedNext(rs: seq<PastRound>, r: PastRound)
    ensures AllErased(rs + [r]) == AllErased(rs) + r.st.erased
  {
    assert (rs + [r])[..|rs|] == rs;
  }

  /** A round trims the list, and uses up rows if it asks for another. */
  lemma RoundTrims(r: PastRound)
    requires RoundDone(r) && r.st.rows > 0
    ensures Trimmed(r.st.before, r.after, r.s.id, r.s.limit, r.st.erased) && r.left <= r.st.rows && (r.kick ==> r.left < r.st.rows)
  {
    hide Along, Trimmed, Compact, MarkedUp, Begins;
  }

  /** Some round was after this message. */
  ghost predicate HadCause(rs: seq<PastRound>, e: LogElement) { exists k :: 0 <= k < |rs| && e in rs[k].st.taken && Doomed(rs[k].s, e) }

  /**
   Whatever message the first pass takes, a high priority rule or the worst offender given to one of its rounds
   matches it; and no message comes in.
   */
  lemma {:induction false} TakenForCause(rs: seq<PastRound>, j: Job, a: Stage, b: Stage)
    requires Rounds(rs, j, a, b)
    ensures forall e :: e in a.logs && e.dropped == 0 && e !in b.logs ==> HadCause(rs, e)
    ensures forall e :: e in b.logs && e.dropped == 0 ==> e in a.logs
  {
    if rs != [] {
      hide RoundDone;
      var before, r := rs[..|rs| - 1], rs[|rs| - 1];
      TakenForCause(before, j, a, StageBefore(r));
      RoundTakes(r);
      forall e | e in a.logs && e.dropped == 0 && e !in b.logs ensures HadCause(rs, e) {
        if e in r.st.before {
          assert rs[|rs| - 1] == r && e in r.st.taken;
        } else {
          var k :| 0 <= k < |before| && e in before[k].st.taken && Doomed(before[k].s, e);
          assert rs[k] == before[k];
        }
      }
    }
  }

  lemma RoundTakes(r: PastRound)
    requires RoundDone(r)
    ensures forall e :: e in r.st.before && e.dropped == 0 && e !in r.after ==> e in r.st.taken && Doomed(r.s, e)
    ensures forall e :: e in r.after && e.dropped == 0 ==> e in r.st.before
  {
    hide Trimmed, Compact, MarkedUp, Ended, Begins, Placed, Clean, WellErased, Proper, Stems;
    forall e | e in r.st.before && e.dropped == 0 && e !in r.after ensures e in r.st.taken && Doomed(r.s, e) {
      var i :| 0 <= i < |r.st.taken| && r.st.taken[i] == e;
    }
  }

  // ---- The passes after it ----

  /** Where the first element of log `id` is that a reader needs, or the end of the list. */
  function Reach(logs: seq<LogElement>, id: LogId, limit: Option<nat>): (k: nat)
    ensures k <= |logs| && (k < |logs| ==> logs[k].logId == id && Needed(logs[k], limit))
    ensures forall j :: 0 <= j < k ==> logs[j].logId == id ==> !Needed(logs[j], limit)
  {
    if logs == [] || (logs[0].logId == id && Needed(logs[0], limit)) then 0 else 1 + Reach(logs[1..], id, limit)
  }

  /** Erasing row by row comes to this if it ends where rows are out, at the end of the list or at an element a reader needs. */
  lemma TakesUpTo(logs: seq<LogElement>, rows: nat, id: LogId, limit: Option<nat>, low: Option<LogElement -> bool>, m: nat, n: nat)
    requires m <= |logs| && n <= rows && n == |Select(logs[..m], Prunable(id, low))| && NoneNeeded(logs, m, id, limit)
    requires n == rows || m == |logs| || (logs[m].logId == id && Needed(logs[m], limit))
    ensures SecondTakes(logs, rows, id, limit, low) == n
  {
    var p, k := Prunable(id, low), Reach(logs, id, limit);
    if n < rows {
      ReachIs(logs, id, limit, m);
    } else {
      assert m <= k;
      assert logs[..k] == logs[..m] + logs[m..k];
      SelectConcat(logs[..m], logs[m..k], p);
    }
  }

  /** No reader needs any of the first m elements, as far as they are of this log. */
  predicate NoneNeeded(logs: seq<LogElement>, m: nat, id: LogId, limit: Option<nat>)
    requires m <= |logs|
  {
    forall j :: 0 <= j < m ==> logs[j].logId == id ==> !Needed(logs[j], limit)
  }

  lemma ReachIs(logs: seq<LogElement>, id: LogId, limit: Option<nat>, k: nat)
    requires k <= |logs| && (k < |logs| ==> logs[k].logId == id && Needed(logs[k], limit))
    requires forall j :: 0 <= j < k ==> logs[j].logId == id ==> !Needed(logs[j], limit)
    ensures Reach(logs, id, limit) == k
  {
  }

  /** What the second pass may erase: low priority messages are left alone. */
  function Prunable(id: LogId, low: Option<LogElement -> bool>): LogElement -> bool
  {
    if low.None? then Matches(id, 0)
    else (e: LogElement) => e.logId == id && !(e.dropped == 0 && low.value(e))
  }

  /** How many the second pass erases: as many as rows, of those before the first element a reader needs. */
  function SecondTakes(logs: seq<LogElement>, rows: nat, id: LogId, limit: Option<nat>, low: Option<LogElement -> bool>): (n: nat)
    ensures n <= rows
  {
    var n := |Select(logs[..Reach(logs, id, limit)], Prunable(id, low))|;
    if rows <= n then rows else n
  }

  function AfterSecond(logs: seq<LogElement>, rows: nat, id: LogId, limit: Option<nat>, low: Option<LogElement -> bool>): seq<LogElement>
  {
    DropFirst(logs, Prunable(id, low), SecondTakes(logs, rows, id, limit, low))
  }

  /** How many the third pass erases, where low priority messages were left alone: whatever is free. */
  function ThirdTakes(logs: seq<LogElement>, rows: nat, id: LogId, limit: Option<nat>, low: Option<LogElement -> bool>): (n: nat)
    ensures n <= rows
  {
    var free := Free(Select(logs, Matches(id, 0)), limit);
    if low.None? then 0 else if rows <= free then rows else free
  }

  /**
   The second and third pass from these rows on: the oldest elements that are not low priority messages go
   first, then, if rows are left, the oldest of all, up to the first one a reader needs.
   */
  ghost predicate LaterPasses(logs: seq<LogElement>, rows: nat, id: LogId, limit: Option<nat>, low: Option<LogElement -> bool>,
                              now: seq<LogElement>, left: nat)
  {
    var a, rest := AfterSecond(logs, rows, id, limit, low), rows - SecondTakes(logs, rows, id, limit, low);
    now == DropFirst(a, Matches(id, 0), ThirdTakes(a, rest, id, limit, low)) && left == rest - ThirdTakes(a, rest, id, limit, low)
  }

  /** A pruning that clears all, or has no low priority rules to heed, has no third pass. */
  lemma SecondOnly(logs: seq<LogElement>, rows: nat, id: LogId, limit: Option<nat>, low: Option<LogElement -> bool>, now: seq<LogElement>, left: nat)
    requires now == AfterSecond(logs, rows, id, limit, low) && left == rows - SecondTakes(logs, rows, id, limit, low)
    requires left == 0 || low.None? || Exhausted(now, id, limit)
    ensures LaterPasses(logs, rows, id, limit, low, now, left)
  {
    NoneDropped(now, Matches(id, 0));
  }

  lemma SecondAndThird(logs: seq<LogElement>, rows: nat, id: LogId, limit: Option<nat>, low: Option<LogElement -> bool>,
                       a: seq<LogElement>, rest: nat, now: seq<LogElement>, left: nat)
    requires low.Some? && a == AfterSecond(logs, rows, id, limit, low) && rest == rows - SecondTakes(logs, rows, id, limit, low) && left <= rest
    requires var free := Free(Select(a, Matches(id, 0)), limit);
      left == (if rest <= free then 0 else rest - free) && now == DropFirst(a, Matches(id, 0), rest - left)
    ensures LaterPasses(logs, rows, id, limit, low, now, left)
  {
  }

  /** A low priority message goes only once nothing else of its log before what a reader needs is left. */
  lemma LowGoLast(logs: seq<LogElement>, rows: nat, id: LogId, limit: Option<nat>, low: LogElement -> bool, now: seq<LogElement>, left: nat, e: LogElement)
    requires Proper(logs) && LaterPasses(logs, rows, id, limit, Some(low), now, left)
    requires e in logs && e.logId == id && e.dropped == 0 && low(e) && e !in now
    ensures forall x :: x in now && Prunable(id, Some(low))(x) ==> x !in logs[..Reach(logs, id, limit)]
  {
    var p, k, n := Prunable(id, Some(low)), Reach(logs, id, limit), SecondTakes(logs, rows, id, limit, Some(low));
    var a, rest := AfterSecond(logs, rows, id, limit, Some(low)), rows - n;
    KeepsOthers(logs, p, n, e);
    NoneDropped(a, Matches(id, 0));
    Apart(logs, k);
    if rest > 0 {
      DropFirstPrefix(logs, p, k);
      assert a == Select(logs[..k], Not(p)) + logs[k..];
      DropFirstMembers(a, Matches(id, 0), ThirdTakes(a, rest, id, limit, Some(low)));
      SelectMembers(logs[..k], Not(p));
    }
  }

  lemma Apart(logs: seq<LogElement>, k: nat)
    requires Proper(logs) && k <= |logs|
    ensures forall x :: x in logs[k..] ==> x !in logs[..k]
  {
    forall i, m | 0 <= m < k && 0 <= i < |logs[k..]| ensures logs[..k][m] != logs[k..][i] {
      assert logs[m].sequence != logs[k + i].sequence;
    }
  }

  lemma NoneDropped(logs: seq<LogElement>, p: LogElement -> bool)
    ensures DropFirst(logs, p, 0) == logs
  {
  }

  lemma {:induction false} DropFirstMembers(logs: seq<LogElement>, p: LogElement -> bool, n: nat)
    ensures forall e :: e in DropFirst(logs, p, n) ==> e in logs
  {
    if logs != [] && n > 0 { DropFirstMembers(logs[1..], p, if p(logs[0]) then n - 1 else n); }
  }

  lemma KeepsOthers(logs: seq<LogElement>, p: LogElement -> bool, n: nat, e: LogElement)
    requires e in logs && !p(e)
    ensures e in DropFirst(logs, p, n)
  {
    DropFirstKeeps(logs, p, n);
    SelectMembers(logs, Not(p));
    SelectMembers(DropFirst(logs, p, n), Not(p));
  }

  // ---- All passes ----

  /** The security log heeds no rules. */
  function JobFor(id: LogId, limit: Option<nat>, rows: nat, offenders: nat -> Offender, rules: Rules): Job
  {
    Job(id, limit, rows, offenders, if id == LOG_ID_SECURITY then None else rules.high, rules.worstUid)
  }

  function LowFor(id: LogId, rules: Rules): Option<LogElement -> bool> { if id == LOG_ID_SECURITY then None else rules.low }

  /** A pruning by anyone but a uid's own clear: the first pass as far as `mid`, then the other two. */
  ghost predicate PassesDone(rs: seq<PastRound>, j: Job, a: Stage, mid: Stage, low: Option<LogElement -> bool>, now: seq<LogElement>, left: nat)
  {
    Proper(mid.logs) && FirstPassDone(rs, j, a, mid) && LaterPasses(mid.logs, mid.left, j.id, j.limit, low, now, left)
  }

  /**
   A message that goes is one the first pass had a cause for, or the first pass left rows to prune; and a low priority
   message one there was a cause for, or nothing else of its log before what a reader needs is left.
   */
  lemma WhatGoes(rs: seq<PastRound>, j: Job, a: Stage, mid: Stage, low: Option<LogElement -> bool>, now: seq<LogElement>, left: nat, e: LogElement)
    requires PassesDone(rs, j, a, mid, low, now, left) && e in a.logs && e.dropped == 0 && e !in now
    ensures HadCause(rs, e) || (mid.left > 0 && e.logId == j.id)
    ensures low.Some? && low.value(e) && !HadCause(rs, e) ==>
      forall x :: x in now && Prunable(j.id, low)(x) ==> x !in mid.logs[..Reach(mid.logs, j.id, j.limit)]
  {
    TakenForCause(rs, j, a, mid);
    if e in mid.logs {
      var p, n := Prunable(j.id, low), SecondTakes(mid.logs, mid.left, j.id, j.limit, low);
      var b, rest := AfterSecond(mid.logs, mid.left, j.id, j.limit, low), mid.left - n;
      NoneDropped(mid.logs, p);
      NoneDropped(b, Matches(j.id, 0));
      if e.logId != j.id {
        KeepsOthers(mid.logs, p, n, e);
        KeepsOthers(b, Matches(j.id, 0), ThirdTakes(b, rest, j.id, j.limit, low), e);
      }
      if low.Some? && low.value(e) { LowGoLast(mid.logs, mid.left, j.id, j.limit, low.value, now, left, e); }
    }
  }

  // ---- What pruning comes to ----

  /** How a pruning went: rows left, the lowest number a reader needs, the elements erased, the rounds of the first pass and where that ended. */
  datatype Outcome = Outcome(left: nat, limit: Option<nat>, gone: seq<LogElement>, rounds: seq<PastRound>, mid: Stage)

  /**
   Pruning of log `id` for a caller, from `a` on. A caller other than root loses exactly its own oldest elements. Root
   has the three passes, or all free elements go if it clears the log. It fails only if rows are left and so are
   elements of the log; if rows are left, no element may go any more.
   */
  ghost predicate PruneDone(a: Stage, now: seq<LogElement>, ok: bool, o: Outcome, id: LogId, callerUid: uint32, offenders: nat -> Offender, rules: Rules)
  {
    && Trimmed(a.logs, now, id, o.limit, o.gone)
    && if callerUid != 0 then UidCleared(a, now, ok, o, Matches(id, callerUid))
       else
         && o.left <= a.left && (ok <==> o.left == 0 || NoneBefore(now, |now|, id))
         && UsedUp(a.logs, now, a.left, o.left) && (o.left > 0 ==> Exhausted(now, id, o.limit))
         && if a.left == ULONG_MAX then AllCleared(a, now, o, Matches(id, 0))
            else PassesDone(o.rounds, JobFor(id, o.limit, a.left, offenders, rules), a, o.mid, LowFor(id, rules), now, o.left)
  }

  ghost predicate UidCleared(a: Stage, now: seq<LogElement>, ok: bool, o: Outcome, p: LogElement -> bool)
  {
    var own := Select(a.logs, p);
    var free := Free(own, o.limit);
    var n := if Rows(a.left) <= free then Rows(a.left) else free;
    now == DropFirst(a.logs, p, n) && o.gone == own[..n] && (ok <==> n == Rows(a.left) || n == |own|)
  }

  ghost predicate AllCleared(a: Stage, now: seq<LogElement>, o: Outcome, p: LogElement -> bool)
  {
    var free := Free(Select(a.logs, p), o.limit);
    now == DropFirst(a.logs, p, if a.left <= free then a.left else free)
  }

  /**
   What the rows used up have come to: at most a message each, and at least an element taken out or a message
   squashed each, but for the last row of a first pass.
   */
  predicate UsedUp(was: seq<LogElement>, logs: seq<LogElement>, rows: nat, left: nat)
  {
    left <= rows && Whole(was) <= Whole(logs) + (rows - left) &&
      |logs| + Whole(logs) + (rows - left) <= |was| + Whole(was) + if left == 0 then 1 else 0
  }

  // ---- One trim after another ----

  lemma TrimTwice(a: seq<LogElement>, b: seq<LogElement>, c: seq<LogElement>, id: LogId, limit: Option<nat>, g: seq<LogElement>, h: seq<LogElement>)
    requires Trimmed(a, b, id, limit, g) && Trimmed(b, c, id, limit, h)
    ensures Trimmed(a, c, id, limit, g + h)
  {
    hide Select, MessageCount, Rising;
    MessageCountConcat(g, h);
    forall k | 0 <= k < |c| ensures StemsFrom(a, c[k]) {
      assert StemsFrom(b, c[k]);
      StemsThrough(a, b, c[k]);
    }
    forall k | 0 <= k < |g + h| ensures Erasable(a, c, id, limit, (g + h)[k]) {
      if k < |g| {
        assert Erasable(a, b, id, limit, g[k]);
        forall i | 0 <= i < |c| ensures c[i].sequence != g[k].sequence { assert StemsFrom(b, c[i]); }
      } else {
        assert Erasable(b, c, id, limit, h[k - |g|]);
        StemsThrough(a, b, h[k - |g|]);
      }
    }
    forall i, k | 0 <= i < |g| && 0 <= k < |h| ensures g[i].sequence != h[k].sequence {
      assert Erasable(a, b, id, limit, g[i]) && Erasable(b, c, id, limit, h[k]);
      assert StemsFrom(b, h[k]);
    }
  }

  lemma StemsThrough(a: seq<LogElement>, b: seq<LogElement>, e: LogElement)
    requires StemsFrom(b, e) && forall k :: 0 <= k < |b| ==> StemsFrom(a, b[k])
    ensures StemsFrom(a, e)
  {
    var k :| 0 <= k < |b| && SameSource(b[k], e);
    var i :| 0 <= i < |a| && SameSource(a[i], b[k]);
    assert SameSource(a[i], e);
  }
}
