/**
 ChattyLogBuffer::LogInternal: squashing runs of identical messages of one log. The eight logs have
 separate slots, so one object stands for the slots of one log; what it hands on to
 SimpleLogBuffer::LogInternal is collected in `emitted`.
 */
module ChattyDedup {
  import opened Bytes
  import opened EntryLayout
  import opened FlatReader
  import opened EventFormat
  import opened ListElements
  import S = LogStats

  const INT32_MAX := 0x7FFF_FFFF
  const INT32_MIN := -0x8000_0000
  const EVENT_INT_SIZE := 9   // tag, type and a 32-bit payload

  /** Storing a sum in a 32-bit payload. */
  function Wrap32(v: int): int32 { Signed32(v % 0x1_0000_0000) }

  lemma InRange(v: int)
    requires 2 * INT32_MIN <= v <= INT32_MAX
    ensures Wrap32(v) == if v < INT32_MIN then v + 0x1_0000_0000 else v
  {
  }

  /** What comparing a message with the last one says. */
  datatype Match = Different | Same | SameLiblog

  /** The 32-bit payload of an event holding a single integer. */
  function IntPayload(e: LogElement): int32
    requires |e.msg| == EVENT_INT_SIZE
  {
    PayloadBound(e.msg[5..]);
    Signed32(FromLE(e.msg[5..]))
  }

  function WithPayload(e: LogElement, v: int): LogElement
    requires |e.msg| == EVENT_INT_SIZE
  {
    e.(msg := e.msg[..5] + ToLE(4, v % 0x1_0000_0000))
  }

  lemma PayloadBound(b: seq<byte>)
    requires |b| == 4
    ensures FromLE(b) < 0x1_0000_0000
  {
    FromLEBound(b);
    Widths();
  }

  /** What a message counts for: the payload of an integer event, nothing otherwise. */
  function Amount(e: LogElement): int
  {
    if e.dropped == 0 && |e.msg| == EVENT_INT_SIZE then IntPayload(e) else 0
  }

  lemma SameShape(e: LogElement, v: int)
    requires |e.msg| == EVENT_INT_SIZE && Packable(e)
    ensures Packable(WithPayload(e, v))
  {
  }

  lemma PayloadSet(e: LogElement, v: int)
    requires |e.msg| == EVENT_INT_SIZE && e.dropped == 0
    ensures |WithPayload(e, v).msg| == EVENT_INT_SIZE && Amount(WithPayload(e, v)) == Wrap32(v)
  {
    var f, u := WithPayload(e, v), v % 0x1_0000_0000;
    assert f.msg[5..] == ToLE(4, u);
    Widths();
    RoundTripLE(4, u);
  }

  lemma AmountIs(e: LogElement)
    ensures e.dropped > 0 ==> Amount(e) == 0
    ensures e.dropped == 0 && |e.msg| == EVENT_INT_SIZE ==> Amount(e) == IntPayload(e)
    ensures INT32_MIN <= Amount(e) <= INT32_MAX
  {
  }

  // ---- Sums and numbers over what came in and what went out ----

  function Sum(es: seq<LogElement>): int { if es == [] then 0 else Sum(es[..|es| - 1]) + Amount(es[|es| - 1]) }

  /** Messages handed on as they are, plus those the chatty elements handed on stand for. */
  function Told(es: seq<LogElement>): nat { if es == [] then 0 else Told(es[..|es| - 1]) + Messages(es[|es| - 1]) }

  lemma Snoc(es: seq<LogElement>, e: LogElement)
    ensures Sum(es + [e]) == Sum(es) + Amount(e) && Told(es + [e]) == Told(es) + Messages(e)
  {
    assert (es + [e])[..|es|] == es;
  }

  predicate Numbered(es: seq<LogElement>) { forall i, j :: 0 <= i < j < |es| ==> es[i].sequence < es[j].sequence }
  predicate AllBefore(es: seq<LogElement>, s: nat) { forall i :: 0 <= i < |es| ==> es[i].sequence < s }
  predicate SomeAfter(es: seq<LogElement>, s: nat) { exists i :: 0 <= i < |es| && es[i].sequence > s }

  predicate Has(es: seq<LogElement>, s: nat) { exists i :: 0 <= i < |es| && es[i].sequence == s }

  lemma SnocOrder(es: seq<LogElement>, e: LogElement)
    ensures Numbered(es + [e]) <==> Numbered(es) && AllBefore(es, e.sequence)
    ensures Unlike(es + [e]) <==> Unlike(es) && !Has(es, e.sequence)
    ensures forall s :: AllBefore(es + [e], s) <==> AllBefore(es, s) && e.sequence < s
    ensures forall s :: SomeAfter(es + [e], s) <==> SomeAfter(es, s) || e.sequence > s
    ensures forall s :: Has(es + [e], s) <==> Has(es, s) || e.sequence == s
  {
    hide Amount;
    var r := es + [e];
    assert forall i :: 0 <= i < |es| ==> r[i] == es[i];
    assert r[|es|] == e;
  }

  lemma Bounds(es: seq<LogElement>, s: nat)
    ensures AllBefore(es, s) ==> !Has(es, s) && !SomeAfter(es, s) && forall t :: s <= t ==> AllBefore(es, t)
    ensures SomeAfter(es, s) ==> !AllBefore(es, s)
    ensures Numbered(es) ==> Unlike(es)
  {
  }

  // ---- What becomes of a run of messages, worked out from what comes in alone ----

  /**
   - `begun`: there is a last message; `payload`: what it counts for, sums included.
   - `open`: the last message is held back; `count`: how many more the held-back chatty count stands for.
   - `stale`: a full sum was handed on over that count; `broken`: such a count was handed on after it.
   - `summed`: messages added to the next one; `lost`: payloads of messages squashed into a count;
     `under`: sums too small for 32 bits, which come out 2^32 too large.
   */
  datatype Course = Course(begun: bool, open: bool, count: nat, payload: int, stale: bool, broken: bool, summed: nat, lost: int, under: nat)

  const IDLE := Course(false, false, 0, 0, false, false, 0, 0, 0)

  function Follow(c: Course, e: LogElement, m: Match): Course
  {
    if e.logId == LOG_ID_SECURITY then c
    else if !c.begun then c.(begun := true, payload := Amount(e))
    else if m == Different then
      c.(open := false, count := 0, payload := Amount(e), stale := false, broken := c.broken || c.stale)
    else if !c.open then c.(open := true, count := 0, payload := Amount(e))
    else if m == SameLiblog then
      if c.payload + Amount(e) > INT32_MAX then c.(payload := Amount(e), stale := c.stale || c.count > 0)
      else c.(payload := Wrap32(c.payload + Amount(e)), summed := c.summed + 1,
              under := c.under + if c.payload + Amount(e) < INT32_MIN then 1 else 0)
    else
      c.(count := if c.count == USHRT_MAX then 1 else c.count + 1, payload := Amount(e), stale := false,
         broken := c.broken || (c.stale && c.count == USHRT_MAX), lost := c.lost + c.payload)
  }

  function CourseOf(es: seq<LogElement>, ms: seq<Match>): Course
    requires |ms| == |es|
  {
    if es == [] then IDLE
    else var n := |es| - 1; Follow(CourseOf(es[..n], ms[..n]), es[n], ms[n])
  }

  /** Message k makes a sum overflow while a chatty count is held back. */
  predicate Jams(es: seq<LogElement>, ms: seq<Match>, k: nat)
    requires |ms| == |es| && k < |es|
  {
    var c := CourseOf(es[..k], ms[..k]);
    c.open && c.count > 0 && ms[k] == SameLiblog && c.payload + Amount(es[k]) > INT32_MAX
  }

  /** Message k makes the held-back count go: it is different, or the count is full. */
  predicate EndsCount(es: seq<LogElement>, ms: seq<Match>, k: nat)
    requires |ms| == |es| && k < |es|
  {
    ms[k] == Different || (ms[k] == Same && CourseOf(es[..k], ms[..k]).count == USHRT_MAX)
  }

  /** Message k makes a sum too small for 32 bits. */
  predicate Underflows(es: seq<LogElement>, ms: seq<Match>, k: nat)
    requires |ms| == |es| && k < |es|
  {
    var c := CourseOf(es[..k], ms[..k]);
    es[k].logId != LOG_ID_SECURITY && c.begun && c.open && ms[k] == SameLiblog && c.payload + Amount(es[k]) < INT32_MIN
  }

  /** The payloads come out right exactly if no sum is too small. */
  lemma {:induction false} UnderIff(es: seq<LogElement>, ms: seq<Match>)
    requires |ms| == |es|
    ensures CourseOf(es, ms).under == 0 <==> forall k :: 0 <= k < |es| ==> !Underflows(es, ms, k)
  {
    if es != [] {
      hide Amount, Wrap32;
      var n := |es| - 1;
      UnderIff(es[..n], ms[..n]);
      forall k | 0 <= k < n ensures Underflows(es[..n], ms[..n], k) <==> Underflows(es, ms, k) {
        assert es[..n][..k] == es[..k] && ms[..n][..k] == ms[..k];
      }
      assert Underflows(es, ms, n) <==> CourseOf(es, ms).under != CourseOf(es[..n], ms[..n]).under;
    }
  }

  predicate OnlySums(ms: seq<Match>, lo: nat, hi: nat)
    requires hi <= |ms|
  {
    forall j :: lo <= j < hi ==> ms[j] == SameLiblog
  }

  /** A sum overflows over a held-back count, and then, with nothing but sums in between, that count has to go. */
  ghost predicate Breaks(es: seq<LogElement>, ms: seq<Match>)
    requires |ms| == |es|
  {
    exists k, m :: 0 <= k < m < |es| && Jams(es, ms, k) && OnlySums(ms, k + 1, m) && EndsCount(es, ms, m)
  }

  lemma ShorterRun(es: seq<LogElement>, ms: seq<Match>, n: nat)
    requires |ms| == |es| && n <= |es|
    ensures forall k :: 0 <= k < n ==> (Jams(es[..n], ms[..n], k) <==> Jams(es, ms, k))
    ensures forall k :: 0 <= k < n ==> (EndsCount(es[..n], ms[..n], k) <==> EndsCount(es, ms, k))
  {
    forall k | 0 <= k < n
      ensures (Jams(es[..n], ms[..n], k) <==> Jams(es, ms, k)) && (EndsCount(es[..n], ms[..n], k) <==> EndsCount(es, ms, k))
    {
      assert es[..n][..k] == es[..k] && ms[..n][..k] == ms[..k];
    }
  }

  /** A sum overflowed over a held-back count and nothing but sums came since. */
  ghost predicate Waiting(es: seq<LogElement>, ms: seq<Match>)
    requires |ms| == |es|
  {
    exists k :: 0 <= k < |es| && Jams(es, ms, k) && OnlySums(ms, k + 1, |es|)
  }

  lemma WaitingNow(es: seq<LogElement>, ms: seq<Match>)
    requires |ms| == |es| > 0
    ensures var n := |es| - 1; Waiting(es, ms) <==> Jams(es, ms, n) || (ms[n] == SameLiblog && Waiting(es[..n], ms[..n]))
  {
    hide Jams;
    var n := |es| - 1;
    ShorterRun(es, ms, n);
    if Jams(es, ms, n) { assert OnlySums(ms, n + 1, n + 1); }
    if ms[n] == SameLiblog && Waiting(es[..n], ms[..n]) {
      var k :| 0 <= k < n && Jams(es[..n], ms[..n], k) && OnlySums(ms[..n], k + 1, n);
      assert Jams(es, ms, k) && OnlySums(ms, k + 1, n + 1);
    }
    if Waiting(es, ms) && !Jams(es, ms, n) {
      var k :| 0 <= k < |es| && Jams(es, ms, k) && OnlySums(ms, k + 1, |es|);
      assert Jams(es[..n], ms[..n], k) && OnlySums(ms[..n], k + 1, n);
    }
  }

  /** The order is broken exactly if it was before, or the last message makes a count of older messages go. */
  lemma BreaksNow(es: seq<LogElement>, ms: seq<Match>)
    requires |ms| == |es| > 0
    ensures var n := |es| - 1; Breaks(es, ms) <==> Breaks(es[..n], ms[..n]) || (EndsCount(es, ms, n) && Waiting(es[..n], ms[..n]))
  {
    hide Jams, EndsCount;
    var n := |es| - 1;
    ShorterRun(es, ms, n);
    if Breaks(es[..n], ms[..n]) {
      var k, m :| 0 <= k < m < n && Jams(es[..n], ms[..n], k) && OnlySums(ms[..n], k + 1, m) && EndsCount(es[..n], ms[..n], m);
      assert Jams(es, ms, k) && OnlySums(ms, k + 1, m) && EndsCount(es, ms, m);
    }
    if EndsCount(es, ms, n) && Waiting(es[..n], ms[..n]) {
      var k :| 0 <= k < n && Jams(es[..n], ms[..n], k) && OnlySums(ms[..n], k + 1, n);
      assert Jams(es, ms, k) && OnlySums(ms, k + 1, n) && EndsCount(es, ms, n);
    }
    if Breaks(es, ms) {
      var k, m :| 0 <= k < m < |es| && Jams(es, ms, k) && OnlySums(ms, k + 1, m) && EndsCount(es, ms, m);
      assert Jams(es[..n], ms[..n], k) && OnlySums(ms[..n], k + 1, m);
      if m < n { assert EndsCount(es[..n], ms[..n], m); }
    }
  }

  predicate Squashable(es: seq<LogElement>) { forall i :: 0 <= i < |es| ==> es[i].logId != LOG_ID_SECURITY }

  /** `stale` and `broken` in terms of what came in. */
  lemma {:induction false} BrokenIff(es: seq<LogElement>, ms: seq<Match>)
    requires |ms| == |es| && Squashable(es)
    ensures var c := CourseOf(es, ms); (c.stale <==> Waiting(es, ms)) && (c.broken <==> Breaks(es, ms))
    ensures var c := CourseOf(es, ms); (c.open ==> c.begun) && (c.stale ==> c.open && c.count > 0)
  {
    if es != [] {
      hide Amount, Waiting, Breaks;
      var n := |es| - 1;
      BrokenIff(es[..n], ms[..n]);
      WaitingNow(es, ms);
      BreaksNow(es, ms);
    }
  }

  /** The same but for an added-up payload. */
  predicate SameMessage(e: LogElement, f: LogElement) { e.sequence == f.sequence && |e.msg| == |f.msg| }

  class Deduplicator {
    const logId: LogId
    const trackTotal: bool
    var last: Option<LogElement>
    var duplicate: Option<LogElement>
    var counters: S.Counters
    ghost var received: seq<LogElement>
    ghost var matches: seq<Match>
    ghost var emitted: seq<LogElement>

    /** A run of identical messages is open: the last message is held back. */
    predicate Open() reads this { duplicate.Some? }

    /** Messages held back: the last one of an open run and those its chatty element stands for. */
    function Held(): nat
      reads this
    {
      if duplicate.Some? then duplicate.value.dropped + 1 else 0
    }

    ghost function HeldAmount(): int
      reads this
    {
      if last.Some? && Open() then Amount(last.value) else 0
    }

    /** What came in so far implies this. */
    ghost function Now(): Course
      requires |matches| == |received|
      reads this
    {
      CourseOf(received, matches)
    }

    ghost predicate Slots()
      reads this
    {
      && (last.None? ==> duplicate.None? && emitted == received) && (logId == LOG_ID_SECURITY ==> last.None?)
      && (last.Some? ==> received != [] && SameMessage(last.value, received[|received| - 1]))
      && (last.Some? ==> last.value.logId == logId && last.value.dropped == 0 && Packable(last.value))
      && (duplicate.Some? ==> duplicate.value.logId == logId && Packable(duplicate.value))
    }

    /** The slots are where what came in puts them. */
    ghost predicate OnCourse()
      reads this
    {
      && |matches| == |received|
      && var c := Now();
        && c.begun == last.Some? && c.open == Open() && (Open() ==> c.count == duplicate.value.dropped)
        && (last.Some? ==> c.payload == Amount(last.value)) && (c.stale ==> c.open && c.count > 0)
    }

    /** Nothing handed on is newer than the last message; a held-back count is older than that exactly if stale. */
    ghost predicate HeldBack()
      requires OnCourse()
      reads this
    {
      && (last.Some? ==> AllBefore(emitted, last.value.sequence + 1) && Has(received, last.value.sequence))
      && (last.Some? && Open() ==> AllBefore(emitted, last.value.sequence) && duplicate.value.sequence < last.value.sequence)
      && (Open() ==> Has(received, duplicate.value.sequence))
      && (Open() && duplicate.value.dropped > 0 && Now().stale ==>
            SomeAfter(emitted, duplicate.value.sequence) && !Has(emitted, duplicate.value.sequence))
      && (Open() && duplicate.value.dropped > 0 && !Now().stale ==> AllBefore(emitted, duplicate.value.sequence))
    }

    ghost predicate Valid()
      reads this
    {
      && Slots() && Numbered(received) && (forall i :: 0 <= i < |received| ==> received[i].logId == logId) && OnCourse() && HeldBack()
      && counters.elementsTotal + (if Open() then 1 else 0) == |received|
      && |received| == Told(emitted) + Held() + Now().summed
      && (forall i :: 0 <= i < |emitted| ==> emitted[i].logId == logId && Packable(emitted[i]))
      && (forall s :: Has(emitted, s) ==> Has(received, s)) && Unlike(emitted)
      && Sum(received) == Sum(emitted) + HeldAmount() + Now().lost - 0x1_0000_0000 * Now().under
      && (Numbered(emitted) <==> !Now().broken)
    }

    constructor (logId: LogId, trackTotal: bool)
      ensures Valid() && this.logId == logId && received == [] && matches == [] && emitted == [] && last == duplicate == None
    {
      this.logId, this.trackTotal := logId, trackTotal;
      last, duplicate, counters := None, None, S.ZERO;
      received, matches, emitted := [], [], [];
    }

    /** SimpleLogBuffer::LogInternal, as far as this log's lifetime counts are concerned. */
    method Emit(e: LogElement)
      modifies this`counters, this`emitted
      ensures emitted == old(emitted) + [e]
      ensures counters.elementsTotal == old(counters).elementsTotal + if e.dropped == 0 then 1 else 0
      ensures Sum(emitted) == old(Sum(emitted)) + Amount(e) && Told(emitted) == old(Told(emitted)) + Messages(e)
      ensures Numbered(emitted) <==> old(Numbered(emitted)) && old(AllBefore(emitted, e.sequence))
      ensures Unlike(emitted) <==> old(Unlike(emitted)) && !old(Has(emitted, e.sequence))
      ensures forall s :: AllBefore(emitted, s) <==> old(AllBefore(emitted, s)) && e.sequence < s
      ensures forall s :: SomeAfter(emitted, s) <==> old(SomeAfter(emitted, s)) || e.sequence > s
      ensures forall s :: Has(emitted, s) <==> old(Has(emitted, s)) || e.sequence == s
    {
      hide Sum, Told, Numbered, AllBefore, SomeAfter, Has, Unlike, Amount;
      Snoc(emitted, e);
      SnocOrder(emitted, e);
      counters := S.Add(counters, Tally(e, trackTotal), logId == LOG_ID_KERNEL);
      emitted := emitted + [e];
    }

    ghost method Receive(elem: LogElement, matched: Match)
      requires Numbered(received) && AllBefore(received, elem.sequence) && |matches| == |received|
      modifies this`received, this`matches
      ensures received == old(received) + [elem] && matches == old(matches) + [matched] && Sum(received) == old(Sum(received)) + Amount(elem)
      ensures Numbered(received)
      ensures forall s :: Has(received, s) <==> old(Has(received, s)) || elem.sequence == s
      ensures Now() == Follow(old(Now()), elem, matched)
    {
      hide Sum, Numbered, AllBefore, SomeAfter, Has, Unlike, Amount, Follow;
      Snoc(received, elem);
      SnocOrder(received, elem);
      received, matches := received + [elem], matches + [matched];
      assert received[..|received| - 1] == old(received) && matches[..|received| - 1] == old(matches);
    }

    /** A new message of this log, numbered after all the others. */
    ghost predicate Acceptable(elem: LogElement)
      reads this
    {
      elem.logId == logId && elem.dropped == 0 && Packable(elem) && AllBefore(received, elem.sequence)
    }

    /** The new message is newer than the last one and than everything handed on. */
    lemma Newer(elem: LogElement)
      requires Valid() && Acceptable(elem) && last.Some?
      ensures logId != LOG_ID_SECURITY && last.value.sequence < elem.sequence
      ensures AllBefore(emitted, elem.sequence) && AllBefore(emitted, elem.sequence + 1) && !Has(emitted, elem.sequence)
      ensures !Has(emitted, last.value.sequence) || !Open()
    {
      assert received[|received| - 1].sequence < elem.sequence;
    }

    /** How bounds on what was handed on relate. */
    lemma Bounded()
      requires Valid() && Open() && duplicate.value.dropped > 0
      ensures !Has(emitted, duplicate.value.sequence) && (AllBefore(emitted, duplicate.value.sequence) <==> !Now().stale)
    {
      Bounds(emitted, duplicate.value.sequence);
    }

    /** What a message makes the slots hand on. */
    function Handed(elem: LogElement, matched: Match): seq<LogElement>
      reads this
    {
      if logId == LOG_ID_SECURITY || last.None? then [elem]
      else if matched == Different then
        (if duplicate.Some? && duplicate.value.dropped > 0 then [duplicate.value] else []) + (if duplicate.Some? then [last.value] else []) + [elem]
      else if duplicate.None? then []
      else if matched == SameLiblog then (if Amount(last.value) + Amount(elem) > INT32_MAX then [last.value] else [])
      else if duplicate.value.dropped == USHRT_MAX then [duplicate.value] else []
    }

    /**
     One message. Every message that came in is handed on, stands behind a handed-on chatty count, is held
     back, or was added up; lifetime totals count every message once, the held-back one excepted; and what
     has been handed on is in order exactly as long as no stale count had to go.
     */
    method LogInternal(elem: LogElement, matched: Match) returns (handed: seq<LogElement>)
      requires Valid() && Acceptable(elem)
      requires matched == SameLiblog && last.Some? ==> |elem.msg| == |last.value.msg| == EVENT_INT_SIZE
      modifies this
      ensures Valid() && received == old(received) + [elem] && matches == old(matches) + [matched]
      ensures emitted == old(emitted) + handed && handed == old(Handed(elem, matched))
      ensures logId != LOG_ID_SECURITY && matched != SameLiblog ==> last == Some(elem)
      ensures logId != LOG_ID_SECURITY && matched == Different ==> duplicate == None
      ensures old(last).Some? && old(duplicate).Some? && matched == SameLiblog && IntPayload(old(last).value) + IntPayload(elem) <= INT32_MAX ==>
        duplicate == old(duplicate) && last == Some(WithPayload(elem, IntPayload(old(last).value) + IntPayload(elem)))
      ensures logId != LOG_ID_SECURITY && old(last).Some? && matched != Different && old(duplicate).None? ==> duplicate == old(last) && last == Some(elem)
    {
      hide Valid, Acceptable;
      AmountIs(elem);
      if last.Some? { AmountIs(last.value); }
      SlotsThere(elem);
      if logId == LOG_ID_SECURITY || last.None? {
        handed := First(elem, matched);
      } else if matched == Different {
        handed := EndRun(elem);
      } else if duplicate.None? {
        handed := OpenRun(elem, matched);
      } else if matched == SameLiblog {
        handed := AddUp(elem);
      } else {
        handed := Squash(elem);
      }
    }

    lemma SlotsThere(elem: LogElement)
      requires Valid() && Acceptable(elem)
      ensures Slots() && elem.dropped == 0
    {
    }

    /** The first message of a log, and every security message, is handed on. */
    method First(elem: LogElement, matched: Match) returns (handed: seq<LogElement>)
      requires Valid() && Acceptable(elem) && (logId == LOG_ID_SECURITY || last.None?)
      modifies this
      ensures Valid() && received == old(received) + [elem] && matches == old(matches) + [matched]
      ensures handed == [elem] && emitted == old(emitted) + handed && duplicate == None
      ensures logId != LOG_ID_SECURITY ==> last == Some(elem)
    {
      hide Sum, Told, Numbered, AllBefore, SomeAfter, Has, Unlike, Amount, Packable, S.Add, Tally, IntPayload, CourseOf;
      Bounds(received, elem.sequence);
      Receive(elem, matched);
      if logId != LOG_ID_SECURITY {
        last := Some(elem);
      }
      Emit(elem);
      handed := [elem];
    }

    /** A different message: hand on the chatty count if there is one, the message held back, and the new one. */
    method EndRun(elem: LogElement) returns (handed: seq<LogElement>)
      requires Valid() && Acceptable(elem) && last.Some?
      modifies this
      ensures Valid() && received == old(received) + [elem] && matches == old(matches) + [Different] && duplicate == None && last == Some(elem)
      ensures emitted == old(emitted) + handed
      ensures handed == old(if Open() && duplicate.value.dropped > 0 then [duplicate.value] else [])
                        + old(if Open() then [last.value] else []) + [elem]
    {
      hide Sum, Told, Numbered, AllBefore, SomeAfter, Has, Unlike, Amount, Packable, S.Add, Tally, IntPayload, CourseOf;
      Newer(elem);
      handed := [];
      if Open() && duplicate.value.dropped > 0 { Bounded(); }
      Receive(elem, Different);
      if duplicate.Some? {
        AmountIs(duplicate.value);
        if duplicate.value.dropped > 0 {
          Emit(duplicate.value);
          handed := [duplicate.value];
        }
        duplicate := None;
        Emit(last.value);
        handed := handed + [last.value];
      }
      last := Some(elem);
      Emit(elem);
      handed := handed + [elem];
    }

    /** The second of two identical messages is held back; the first has been handed on. */
    method OpenRun(elem: LogElement, matched: Match) returns (handed: seq<LogElement>)
      requires Valid() && Acceptable(elem) && last.Some? && duplicate.None? && matched != Different
      modifies this
      ensures Valid() && received == old(received) + [elem] && matches == old(matches) + [matched] && handed == [] && emitted == old(emitted)
      ensures duplicate == old(last) && last == Some(elem)
    {
      hide Sum, Told, Numbered, AllBefore, SomeAfter, Has, Unlike, Amount, Packable, S.Add, Tally, IntPayload, CourseOf;
      Newer(elem);
      Receive(elem, matched);
      duplicate := Some(last.value);
      last := Some(elem);
      handed := [];
    }

    /** Integer events of liblog are added up, unless the sum does not fit: then the sum so far is handed on. */
    method AddUp(elem: LogElement) returns (handed: seq<LogElement>)
      requires Valid() && Acceptable(elem) && last.Some? && duplicate.Some? && |elem.msg| == |last.value.msg| == EVENT_INT_SIZE
      modifies this
      ensures Valid() && received == old(received) + [elem] && matches == old(matches) + [SameLiblog]
      ensures emitted == old(emitted) + handed && duplicate == old(duplicate)
      ensures IntPayload(old(last).value) + IntPayload(elem) > INT32_MAX ==> handed == [old(last).value] && last == Some(elem)
      ensures IntPayload(old(last).value) + IntPayload(elem) <= INT32_MAX ==>
        handed == [] && last == Some(WithPayload(elem, IntPayload(old(last).value) + IntPayload(elem)))
    {
      hide Sum, Told, Numbered, AllBefore, SomeAfter, Has, Unlike, Amount, Packable, S.Add, Tally, IntPayload, CourseOf, Wrap32;
      Newer(elem);
      if duplicate.value.dropped > 0 { Bounded(); }
      Receive(elem, SameLiblog);
      var currentLast := last.value;
      AmountIs(currentLast);
      AmountIs(elem);
      var total := IntPayload(currentLast) + IntPayload(elem);
      if total > INT32_MAX {
        Emit(currentLast);
        last := Some(elem);
        return [currentLast];
      }
      counters := S.AddTotal(counters, |currentLast.msg|);
      PayloadSet(elem, total);
      InRange(total);
      assert Packable(WithPayload(elem, total)) by { SameShape(elem, total); }
      last := Some(WithPayload(elem, total));
      handed := [];
    }

    /** The third and later identical messages: the one held back becomes part of the chatty count. */
    method Squash(elem: LogElement) returns (handed: seq<LogElement>)
      requires Valid() && Acceptable(elem) && last.Some? && duplicate.Some?
      modifies this
      ensures Valid() && received == old(received) + [elem] && matches == old(matches) + [Same] && last == Some(elem)
      ensures var full := old(duplicate).value.dropped == USHRT_MAX;
        && handed == (if full then [old(duplicate).value] else []) && emitted == old(emitted) + handed
        && duplicate == Some(SetDropped(old(last).value, if full then 1 else old(duplicate).value.dropped + 1))
    {
      hide Sum, Told, Numbered, AllBefore, SomeAfter, Has, Unlike, Amount, S.Add, Tally, IntPayload, CourseOf;
      Newer(elem);
      if duplicate.value.dropped > 0 { Bounded(); }
      Receive(elem, Same);
      var dropped := duplicate.value.dropped;
      handed := [];
      if dropped == USHRT_MAX {
        AmountIs(duplicate.value);
        Emit(duplicate.value);
        handed := [duplicate.value];
        dropped := 0;
      }
      var currentLast := last.value;
      counters := S.AddTotal(counters, |currentLast.msg|);
      duplicate := Some(SetDropped(currentLast, dropped + 1));
      last := Some(elem);
    }
  }

  /** Without integer events nothing is added up and the order never breaks; without squashing no payload is lost. */
  lemma {:induction false} PlainCourse(es: seq<LogElement>, ms: seq<Match>)
    requires |ms| == |es|
    ensures var c := CourseOf(es, ms); (SameLiblog !in ms ==> c.summed == 0 && !c.stale && !c.broken) && (Same !in ms ==> c.lost == 0)
  {
    if es != [] {
      hide Amount, Wrap32;
      var n := |es| - 1;
      PlainCourse(es[..n], ms[..n]);
      assert ms[n] in ms;
    }
  }

  /**
   Whole runs: whatever comes in and however it compares, no message goes unaccounted for, and what is
   handed on is in order if and only if no sum overflows over a count that then has to go.
   */
  method LogAll(id: LogId, elems: seq<LogElement>, matches: seq<Match>, trackTotal: bool) returns (d: Deduplicator)
    requires |matches| == |elems| && Numbered(elems)
    requires forall i :: 0 <= i < |elems| ==> elems[i].logId == id && elems[i].dropped == 0 && Packable(elems[i])
    requires forall i :: 0 <= i < |elems| && matches[i] == SameLiblog ==> i > 0 && |elems[i].msg| == |elems[i - 1].msg| == EVENT_INT_SIZE
    ensures |elems| == d.counters.elementsTotal + (if d.Open() then 1 else 0)
    ensures |elems| == Told(d.emitted) + d.Held() + CourseOf(elems, matches).summed
    ensures SameLiblog !in matches ==> |elems| == Told(d.emitted) + d.Held()
    ensures Sum(elems) == Sum(d.emitted) + d.HeldAmount() + CourseOf(elems, matches).lost - 0x1_0000_0000 * CourseOf(elems, matches).under
    ensures Same !in matches && (forall k :: 0 <= k < |elems| ==> !Underflows(elems, matches, k)) ==> Sum(elems) == Sum(d.emitted) + d.HeldAmount()
    ensures id != LOG_ID_SECURITY ==> (Numbered(d.emitted) <==> !Breaks(elems, matches))
    ensures id == LOG_ID_SECURITY ==> d.emitted == elems
    ensures forall i :: 0 <= i < |d.emitted| ==> d.emitted[i].dropped <= USHRT_MAX
  {
    hide Sum, Told, Packable, CourseOf, Breaks, Unlike, Has, AllBefore, SomeAfter;
    d := FeedAll(id, elems, matches, trackTotal);
    PlainCourse(elems, matches);
    UnderIff(elems, matches);
    if id != LOG_ID_SECURITY { BrokenIff(elems, matches); }
    EmittedFit(d);
  }

  method FeedAll(id: LogId, elems: seq<LogElement>, matches: seq<Match>, trackTotal: bool) returns (d: Deduplicator)
    requires |matches| == |elems| && Numbered(elems)
    requires forall i :: 0 <= i < |elems| ==> elems[i].logId == id && elems[i].dropped == 0 && Packable(elems[i])
    requires forall i :: 0 <= i < |elems| && matches[i] == SameLiblog ==> i > 0 && |elems[i].msg| == |elems[i - 1].msg| == EVENT_INT_SIZE
    ensures d.Valid() && d.logId == id && d.received == elems && d.matches == matches && (id == LOG_ID_SECURITY ==> d.emitted == elems)
  {
    hide Sum, Told, Packable, CourseOf, Unlike, Has, SomeAfter;
    d := new Deduplicator(id, trackTotal);
    for k := 0 to |elems|
      invariant fresh(d) && d.Valid() && d.logId == id && d.received == elems[..k] && d.matches == matches[..k]
      invariant id == LOG_ID_SECURITY ==> d.emitted == elems[..k]
    {
      assert elems[..k + 1] == elems[..k] + [elems[k]] && matches[..k + 1] == matches[..k] + [matches[k]];
      var _ := d.LogInternal(elems[k], matches[k]);
    }
    assert elems[..|elems|] == elems && matches[..|elems|] == matches;
  }

  lemma EmittedFit(d: Deduplicator)
    requires d.Valid()
    ensures forall i :: 0 <= i < |d.emitted| ==> d.emitted[i].dropped <= USHRT_MAX
  {
  }

  /** An integer event of liblog with this number and payload. */
  function Event(s: nat, v: int): LogElement
  {
    WithPayload(LogElement(LOG_ID_EVENTS, 0, 0, 0, s, 0, 1006, [0xEE, 3, 0, 0, 0, 0, 0, 0, 0], 0), v)
  }

  lemma EventFacts(s: nat, v: int)
    ensures var e := Event(s, v); e.logId == LOG_ID_EVENTS && e.sequence == s && e.dropped == 0 && Packable(e)
    ensures |Event(s, v).msg| == EVENT_INT_SIZE && Amount(Event(s, v)) == Wrap32(v) && Event(s, v).msg[..5] == [0xEE, 3, 0, 0, 0]
  {
    PayloadSet(LogElement(LOG_ID_EVENTS, 0, 0, 0, s, 0, 1006, [0xEE, 3, 0, 0, 0, 0, 0, 0, 0], 0), v);
  }

  function JamRun(): seq<LogElement>
  {
    [Event(1, INT32_MAX), Event(2, INT32_MAX), Event(3, INT32_MAX), Event(4, 1), LogElement(LOG_ID_EVENTS, 0, 0, 0, 5, 0, 0, [1], 0)]
  }

  const JAM_MATCHES := [Different, Same, Same, SameLiblog, Different]

  lemma JamRunBreaks()
    ensures Breaks(JamRun(), JAM_MATCHES)
  {
    hide Amount, Event;
    var es, ms := JamRun(), JAM_MATCHES;
    forall s: nat, v: int ensures Event(s, v).logId == LOG_ID_EVENTS && Amount(Event(s, v)) == Wrap32(v) { EventFacts(s, v); }
    assert es[..0] == [] && ms[..0] == [];
    forall k | 0 <= k < 3
      ensures CourseOf(es[..k + 1], ms[..k + 1]) == Follow(CourseOf(es[..k], ms[..k]), es[k], ms[k])
    {
      assert es[..k + 1][..k] == es[..k] && ms[..k + 1][..k] == ms[..k];
    }
    hide CourseOf;
    NoCourse();
    assert CourseOf(es[..1], ms[..1]).begun;
    assert CourseOf(es[..2], ms[..2]).open;
    assert Jams(es, ms, 3) && OnlySums(ms, 4, 4) && EndsCount(es, ms, 4);
  }

  lemma NoCourse()
    ensures CourseOf([], []) == IDLE
  {
  }

  /**
   The order does break: three equal events with the largest payload, one of payload 1, and another message.
   Equal bytes compare as Same before sums are considered, so the third event starts a chatty count; the
   fourth makes the sum overflow over it, and the fifth hands the count on after the newer sum.
   */
  method FullSumBreaksOrder() returns (d: Deduplicator)
    ensures !Numbered(d.emitted)
    ensures Event(1, INT32_MAX).msg == Event(2, INT32_MAX).msg == Event(3, INT32_MAX).msg
    ensures Event(3, INT32_MAX).msg[..5] == Event(4, 1).msg[..5]
  {
    hide Amount, Breaks;
    EventFacts(1, INT32_MAX);
    EventFacts(2, INT32_MAX);
    EventFacts(3, INT32_MAX);
    EventFacts(4, 1);
    JamRunBreaks();
    d := LogAll(LOG_ID_EVENTS, JamRun(), JAM_MATCHES, true);
  }

  /** A sum that is too small: of payloads -1, -2^31 and -1 the last two are held back as 2^31 - 1. */
  method SumWraps() returns (d: Deduplicator)
    ensures d.emitted == [Event(1, -1)] && d.received == [Event(1, -1), Event(2, INT32_MIN), Event(3, -1)]
    ensures d.matches == [Different, SameLiblog, SameLiblog] && d.HeldAmount() == INT32_MAX
    ensures Event(1, -1).msg[..5] == Event(2, INT32_MIN).msg[..5] == Event(3, -1).msg[..5]
  {
    hide Amount, Event, d.Valid;
    EventFacts(1, -1);
    EventFacts(2, INT32_MIN);
    EventFacts(3, -1);
    AmountIs(Event(2, INT32_MIN));
    AmountIs(Event(3, -1));
    InRange(INT32_MIN);
    InRange(-1);
    InRange(INT32_MIN - 1);
    PayloadSet(Event(3, -1), INT32_MIN - 1);
    d := new Deduplicator(LOG_ID_EVENTS, true);
    var _ := d.LogInternal(Event(1, -1), Different);
    var _ := d.LogInternal(Event(2, INT32_MIN), SameLiblog);
    var _ := d.LogInternal(Event(3, -1), SameLiblog);
  }
}
