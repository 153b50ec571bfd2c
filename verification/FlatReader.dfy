/**
 What a reader sees, with chunks and byte offsets abstracted away: one flat entry sequence per log
 id, and for each watched id an index up to which the reader has read it.

 `Tracks` is the invariant every lock-protected step keeps for every reader; the lemmas below show it
 for each kind of step. Its consequences are that a reader is never sent an older entry after a newer
 one, and that an entry is withheld only for a stated reason.
 */
module FlatReader {
  import opened Bytes
  import opened EntryLayout
  import opened SerializedLists

  const LOG_ID_MAX := 8
  type LogId = i: nat | i < LOG_ID_MAX

  const LOG_ID_EVENTS: LogId := 2
  const LOG_ID_SECURITY: LogId := 6
  const LOG_ID_KERNEL: LogId := 7

  const EINVAL := -22
  const EACCES := -13

  /** LogWriter: privileged writers see every uid, the others only their own. */
  datatype Writer = Writer(uid: uint32, privileged: bool)

  datatype FilterResult = Skip | Stop | Write

  predicate Visible(w: Writer, e: Entry) { w.privileged || e.uid == w.uid }

  /** `at[id]` entries of log `id` lie behind the cursor; ids without a cursor have not been located yet. */
  datatype Cursors = Cursors(mask: set<LogId>, start: nat, at: map<LogId, nat>)

  /**
   What has happened to a reader so far.
   - `mid`: `start` is the number of an entry already taken in the current flush.
   - `replay`: since then a uid clear dropped the cursor behind that entry and left the entry.
   - `from`: the start number it was created with; `late`: numbers appended below its start.
   - `offered`: visible entries handed to its filter; `delivered`: numbers written to its client.
   - `again`: how often an entry already written was written once more.
   */
  datatype History = History(mid: bool, replay: bool, from: nat, late: set<nat>, offered: set<nat>,
                             delivered: seq<nat>, again: nat)

  /** One more than the highest number the reader is past. */
  function Floor(c: Cursors, h: History): nat { Passed(c.start, h) }

  function Passed(start: nat, h: History): nat { if h.mid then start + 1 else start }

  predicate NonDecreasing(s: seq<nat>) { forall i, j :: 0 <= i < j < |s| ==> s[i] <= s[j] }
  predicate Increasing(s: seq<nat>) { forall i, j :: 0 <= i < j < |s| ==> s[i] < s[j] }

  /** How many numbers are not the first of their kind. */
  function Repeats(s: seq<nat>): nat
  {
    if s == [] then 0 else Repeats(s[..|s| - 1]) + if s[|s| - 1] in s[..|s| - 1] then 1 else 0
  }

  lemma RepeatsSnoc(s: seq<nat>, x: nat)
    ensures Repeats(s + [x]) == Repeats(s) + if x in s then 1 else 0
  {
    assert (s + [x])[..|s|] == s;
  }

  /** Numbers in order increase strictly exactly if none repeats. */
  lemma {:induction false} IncreasingIff(s: seq<nat>)
    requires NonDecreasing(s)
    ensures Increasing(s) <==> Repeats(s) == 0
  {
    if s != [] {
      var t, x := s[..|s| - 1], s[|s| - 1];
      IncreasingIff(t);
      if x in t {
        var i :| 0 <= i < |t| && t[i] == x;
        assert s[i] == s[|s| - 1];
      }
      if Increasing(t) && x !in t {
        forall i, j | 0 <= i < j < |s| ensures s[i] < s[j] {
          if j == |s| - 1 { assert t[i] in t; }
        }
      }
      if Increasing(s) { assert Increasing(t); }
    }
  }

  /** Index i of log `id` is still ahead of the reader. */
  predicate Ahead(c: Cursors, id: LogId, i: nat) { id in c.at ==> c.at[id] <= i }

  /** Every log is in increasing order below `next`, and no number is used twice. */
  ghost predicate Ordered(flats: seq<seq<Entry>>, next: nat)
  {
    && |flats| == LOG_ID_MAX
    && (forall id :: 0 <= id < LOG_ID_MAX ==> Sorted(flats[id]) && AllBelow(flats[id], next))
    && (forall a, b, i, j :: 0 <= a < b < LOG_ID_MAX && 0 <= i < |flats[a]| && 0 <= j < |flats[b]| ==>
          flats[a][i].sequence != flats[b][j].sequence)
  }

  ghost predicate BehindOk(flats: seq<seq<Entry>>, c: Cursors, floor: nat)
    requires |flats| == LOG_ID_MAX
  {
    forall id :: id in c.at ==> c.at[id] <= |flats[id]| && AllBelow(flats[id][..c.at[id]], floor)
  }

  ghost predicate NoneAheadAt(flats: seq<seq<Entry>>, c: Cursors)
    requires |flats| == LOG_ID_MAX
  {
    forall id: LogId, i :: id in c.mask && 0 <= i < |flats[id]| && Ahead(c, id, i) ==> flats[id][i].sequence != c.start
  }

  /** An entry numbered `start` lies ahead if there is one. */
  ghost predicate AllAheadAt(flats: seq<seq<Entry>>, c: Cursors)
    requires |flats| == LOG_ID_MAX
  {
    forall id: LogId, i :: id in c.mask && 0 <= i < |flats[id]| && flats[id][i].sequence == c.start ==> Ahead(c, id, i)
  }

  /** A watched log has an entry with this number. */
  ghost predicate Stored(flats: seq<seq<Entry>>, mask: set<LogId>, s: nat)
    requires |flats| == LOG_ID_MAX
  {
    exists id: LogId, i :: id in mask && 0 <= i < |flats[id]| && flats[id][i].sequence == s
  }

  /** The entry last taken is still there and will be taken again. */
  ghost predicate Rereads(flats: seq<seq<Entry>>, mask: set<LogId>, start: nat, h: History)
    requires |flats| == LOG_ID_MAX
  {
    h.replay && Stored(flats, mask, start)
  }

  /** The lowest number the next taken entry can have. */
  ghost function NextFrom(flats: seq<seq<Entry>>, mask: set<LogId>, start: nat, h: History): nat
    requires |flats| == LOG_ID_MAX
  {
    if h.mid && !Rereads(flats, mask, start, h) then start + 1 else start
  }

  /** Everything visible the reader is past was offered to its filter, or was already old when it appeared. */
  ghost predicate NoLoss(flats: seq<seq<Entry>>, w: Writer, c: Cursors, h: History, floor: nat)
    requires |flats| == LOG_ID_MAX
  {
    forall id: LogId, i :: id in c.mask && 0 <= i < |flats[id]| && Visible(w, flats[id][i]) && flats[id][i].sequence < floor
      ==> Accounted(h, flats[id][i].sequence)
  }

  predicate Accounted(h: History, n: nat) { n < h.from || n in h.late || n in h.offered }

  /** Deliveries are in order and were offered first; an entry that came too late is never offered. */
  ghost predicate DeliveredOk(h: History, start: nat, next: nat, floor: nat)
  {
    && NonDecreasing(h.delivered) && Repeats(h.delivered) == h.again
    && (forall d :: d in h.delivered ==> d < floor && d in h.offered)
    && (forall n :: n in h.offered ==> n < next && n < floor)
    && (forall n :: n in h.late ==> n < next && n < start && n !in h.offered)
    && h.from <= start && (h.replay ==> h.mid)
  }

  ghost predicate Tracks(flats: seq<seq<Entry>>, next: nat, w: Writer, c: Cursors, h: History)
  {
    && |flats| == LOG_ID_MAX
    && BehindOk(flats, c, Floor(c, h))
    && (h.mid ==> c.start < next)
    && (h.mid && !h.replay ==> NoneAheadAt(flats, c)) && (h.replay ==> AllAheadAt(flats, c))
    && NoLoss(flats, w, c, h, Floor(c, h))
    && DeliveredOk(h, c.start, next, Floor(c, h))
  }

  /** Every watched log with entries has been located. */
  ghost predicate Located(flats: seq<seq<Entry>>, c: Cursors)
    requires |flats| == LOG_ID_MAX
  {
    && (forall id: LogId :: id in c.mask && flats[id] != [] ==> id in c.at)
    && (forall id :: id in c.at ==> id in c.mask && c.at[id] <= |flats[id]|)
  }

  /** The next entry of log `id` is the lowest-numbered entry any watched log has next. */
  ghost predicate NextIs(flats: seq<seq<Entry>>, c: Cursors, id: LogId)
    requires |flats| == LOG_ID_MAX && Located(flats, c)
  {
    && id in c.at && c.at[id] < |flats[id]|
    && (forall b :: b in c.at && c.at[b] < |flats[b]| ==> flats[id][c.at[id]].sequence <= flats[b][c.at[b]].sequence)
  }

  function Advance(c: Cursors, id: LogId): Cursors
    requires id in c.at
  {
    c.(at := c.at[id := c.at[id] + 1])
  }

  /** Entry e of log `id` comes next at c, and d is one past it. */
  ghost predicate Pops(flats: seq<seq<Entry>>, c: Cursors, id: LogId, e: Entry, d: Cursors)
    requires |flats| == LOG_ID_MAX
  {
    Located(flats, c) && NextIs(flats, c, id) && e == flats[id][c.at[id]] && d == Advance(c, id)
  }

  // ---- Creation ----

  lemma NewReader(flats: seq<seq<Entry>>, next: nat, w: Writer, mask: set<LogId>, start: nat)
    requires |flats| == LOG_ID_MAX
    ensures Tracks(flats, next, w, Cursors(mask, start, map[]), History(false, false, start, {}, {}, [], 0))
  {
  }

  /** Cursor d has located more logs than c, each at the first entry not below `start`. */
  ghost predicate Extends(flats: seq<seq<Entry>>, c: Cursors, d: Cursors)
    requires |flats| == LOG_ID_MAX
  {
    && d.mask == c.mask && d.start == c.start && c.at.Keys <= d.at.Keys
    && (forall id :: id in c.at ==> d.at[id] == c.at[id])
    && (forall id :: id in d.at && id !in c.at ==> id in c.mask && SplitAt(flats[id], d.at[id], c.start))
  }

  ghost predicate SplitAt(es: seq<Entry>, n: nat, s: nat)
  {
    n <= |es| && AllBelow(es[..n], s) && (forall i :: n <= i < |es| ==> es[i].sequence >= s)
  }

  lemma ExtendsOne(flats: seq<seq<Entry>>, c: Cursors, id: LogId, n: nat)
    requires |flats| == LOG_ID_MAX && id in c.mask && id !in c.at && SplitAt(flats[id], n, c.start)
    ensures Extends(flats, c, c.(at := c.at[id := n]))
  {
  }

  /** Log `id` needs no further look: located if it has entries, and marked exactly when read to the end. */
  ghost predicate UpToDate(flats: seq<seq<Entry>>, c: Cursors, needed: set<LogId>, id: LogId)
    requires |flats| == LOG_ID_MAX
  {
    && (id in c.mask && flats[id] != [] ==> id in c.at)
    && (id in c.at ==> c.at[id] <= |flats[id]| && (id in needed <==> c.at[id] == |flats[id]|))
  }

  lemma UpToDateKept(flats: seq<seq<Entry>>, c: Cursors, n: set<LogId>, d: Cursors, m: set<LogId>, id: LogId, other: LogId)
    requires |flats| == LOG_ID_MAX && Extends(flats, c, d) && UpToDate(flats, c, n, id) && id != other
    requires d.at.Keys <= c.at.Keys + {other} && m - {other} == n - {other}
    ensures UpToDate(flats, d, m, id)
  {
    assert id in n <==> id in n - {other};
    assert id in m <==> id in m - {other};
  }

  lemma ExtendsSame(flats: seq<seq<Entry>>, c: Cursors)
    requires |flats| == LOG_ID_MAX
    ensures Extends(flats, c, c)
  {
  }

  lemma ExtendsFields(flats: seq<seq<Entry>>, c: Cursors, d: Cursors)
    requires |flats| == LOG_ID_MAX && Extends(flats, c, d)
    ensures d.mask == c.mask && d.start == c.start
  {
  }

  lemma ExtendsTransitive(flats: seq<seq<Entry>>, a: Cursors, b: Cursors, c: Cursors)
    requires |flats| == LOG_ID_MAX && Extends(flats, a, b) && Extends(flats, b, c)
    ensures Extends(flats, a, c)
  {
  }

  lemma ExtendsTracks(flats: seq<seq<Entry>>, next: nat, w: Writer, c: Cursors, d: Cursors, h: History)
    requires Tracks(flats, next, w, c, h) && Extends(flats, c, d)
    ensures Tracks(flats, next, w, d, h)
  {
    assert forall b: LogId, i: nat :: Ahead(d, b, i) ==> Ahead(c, b, i);
    forall b: LogId, i | b in d.mask && 0 <= i < |flats[b]| && flats[b][i].sequence == d.start
      ensures Ahead(c, b, i) ==> Ahead(d, b, i)
    {
    }
  }

  // ---- Taking the next entry ----

  lemma AheadIsLater(flats: seq<seq<Entry>>, next: nat, c: Cursors, id: LogId, b: LogId, j: nat)
    requires Ordered(flats, next) && Located(flats, c) && NextIs(flats, c, id)
    requires b in c.mask && j < |flats[b]| && Ahead(c, b, j)
    ensures flats[id][c.at[id]].sequence <= flats[b][j].sequence
    ensures flats[id][c.at[id]].sequence == flats[b][j].sequence <==> b == id && j == c.at[id]
  {
    assert flats[b] != [];
    var k := c.at[b];
    assert Sorted(flats[b]);
    assert k == j || flats[b][k].sequence < flats[b][j].sequence;
    if b != id {
      var n := c.at[id];
      assert flats[id][n].sequence != flats[b][j].sequence;
    }
  }

  /** An entry below `start` is stepped over. */
  lemma SkipOldTracks(flats: seq<seq<Entry>>, next: nat, w: Writer, c: Cursors, h: History, id: LogId)
    requires Ordered(flats, next) && Tracks(flats, next, w, c, h) && Located(flats, c) && NextIs(flats, c, id)
    requires flats[id][c.at[id]].sequence < c.start
    ensures Tracks(flats, next, w, Advance(c, id), h) && Located(flats, Advance(c, id))
  {
    hide Ordered, NoLoss, DeliveredOk;
    var d, n := Advance(c, id), c.at[id];
    assert NoLoss(flats, w, d, h, Floor(d, h)) by { SameNoLoss(flats, w, c, d, h, Floor(c, h)); }
    assert flats[id][..n + 1] == flats[id][..n] + [flats[id][n]];
    assert forall b: LogId, i: nat :: Ahead(d, b, i) ==> Ahead(c, b, i);
  }

  lemma SameNoLoss(flats: seq<seq<Entry>>, w: Writer, c: Cursors, d: Cursors, h: History, floor: nat)
    requires |flats| == LOG_ID_MAX && NoLoss(flats, w, c, h, floor) && d.mask == c.mask
    ensures NoLoss(flats, w, d, h, floor)
  {
  }

  function Take(h: History, w: Writer, e: Entry): History
  {
    h.(mid := true, replay := false, offered := if Visible(w, e) then h.offered + {e.sequence as nat} else h.offered)
  }

  /** Taking an entry at or above `start` moves `start` onto it; it is newer than everything delivered. */
  lemma TakeTracks(flats: seq<seq<Entry>>, next: nat, w: Writer, c: Cursors, h: History, id: LogId)
    requires Ordered(flats, next) && Tracks(flats, next, w, c, h) && Located(flats, c) && NextIs(flats, c, id)
    requires flats[id][c.at[id]].sequence >= c.start
    ensures var e := flats[id][c.at[id]];
      var d := Advance(c, id).(start := e.sequence);
      && Tracks(flats, next, w, d, Take(h, w, e)) && Located(flats, d)
      && e.sequence >= NextFrom(flats, c.mask, c.start, h) && (Rereads(flats, c.mask, c.start, h) ==> e.sequence == c.start)
      && (forall x :: x in h.delivered ==> x <= e.sequence && (x == e.sequence ==> h.mid && x == c.start))
  {
    hide NoLoss, BehindOk, DeliveredOk, Sorted;
    var n := c.at[id];
    var e := flats[id][n];
    var d := Advance(c, id).(start := e.sequence);
    assert AllBelow(flats[id], next);
    hide Ordered;
    TakeBehind(flats, next, c, h, id);
    TakeNoLoss(flats, next, w, c, h, id);
    assert Ahead(c, id, n) && id in c.mask;
    if Rereads(flats, c.mask, c.start, h) {
      var b: LogId, j :| b in c.mask && 0 <= j < |flats[b]| && flats[b][j].sequence == c.start;
      AheadIsLater(flats, next, c, id, b, j);
    } else if h.replay {
      assert e.sequence != c.start;
    }
    TakeDelivered(h, w, e, c.start, next);
    forall b: LogId, j | b in d.mask && 0 <= j < |flats[b]| && Ahead(d, b, j)
      ensures flats[b][j].sequence != e.sequence
    {
      AheadIsLater(flats, next, c, id, b, j);
    }
  }

  lemma TakeDelivered(h: History, w: Writer, e: Entry, start: nat, next: nat)
    requires DeliveredOk(h, start, next, Passed(start, h)) && start <= e.sequence < next
    ensures DeliveredOk(Take(h, w, e), e.sequence, next, e.sequence + 1)
    ensures forall x :: x in h.delivered ==> x <= e.sequence && (x == e.sequence ==> h.mid && x == start)
  {
  }

  lemma TakeNoLoss(flats: seq<seq<Entry>>, next: nat, w: Writer, c: Cursors, h: History, id: LogId)
    requires |flats| == LOG_ID_MAX && Ordered(flats, next) && BehindOk(flats, c, Floor(c, h)) && NoLoss(flats, w, c, h, Floor(c, h))
    requires Located(flats, c) && NextIs(flats, c, id)
    ensures var e := flats[id][c.at[id]];
      NoLoss(flats, w, Advance(c, id).(start := e.sequence), Take(h, w, e), e.sequence + 1)
  {
    hide Ordered, BehindOk, Located;
    var e := flats[id][c.at[id]];
    var g := Take(h, w, e);
    forall b: LogId, j | b in c.mask && 0 <= j < |flats[b]| && Visible(w, flats[b][j]) && flats[b][j].sequence < e.sequence + 1
      ensures Accounted(g, flats[b][j].sequence)
    {
      if flats[b][j].sequence >= Floor(c, h) {
        AllReadBelow(flats, c, Floor(c, h), b, j);
        AheadIsLater(flats, next, c, id, b, j);
      }
    }
  }

  lemma AllReadBelow(flats: seq<seq<Entry>>, c: Cursors, floor: nat, b: LogId, j: nat)
    requires |flats| == LOG_ID_MAX && BehindOk(flats, c, floor) && j < |flats[b]| && flats[b][j].sequence >= floor
    ensures Ahead(c, b, j)
  {
    if b in c.at {
      var read := flats[b][..c.at[b]];
      assert forall i :: 0 <= i < |read| ==> read[i] == flats[b][i] && read[i].sequence < floor;
    }
  }

  lemma TakeBehind(flats: seq<seq<Entry>>, next: nat, c: Cursors, h: History, id: LogId)
    requires Ordered(flats, next) && BehindOk(flats, c, Floor(c, h)) && id in c.at && c.at[id] < |flats[id]|
    requires flats[id][c.at[id]].sequence >= c.start
    ensures var e := flats[id][c.at[id]];
      BehindOk(flats, Advance(c, id).(start := e.sequence), e.sequence + 1)
  {
    hide AllBelow;
    var n, floor := c.at[id], flats[id][c.at[id]].sequence + 1;
    AllBelowNext(flats[id], n);
    forall b | b in c.at ensures AllBelow(flats[b][..c.at[b]], floor) { BelowMore(flats[b][..c.at[b]], Floor(c, h), floor); }
  }

  lemma AllBelowNext(es: seq<Entry>, n: nat)
    requires Sorted(es) && n < |es|
    ensures AllBelow(es[..n + 1], es[n].sequence + 1)
  {
  }

  lemma BelowMore(es: seq<Entry>, floor: nat, higher: nat)
    requires AllBelow(es, floor) && floor <= higher
    ensures AllBelow(es, higher)
  {
  }

  /** Writing out the entry just taken. */
  function Delivered(h: History, n: nat): History
  {
    h.(delivered := h.delivered + [n], again := h.again + if n in h.delivered then 1 else 0)
  }

  /** It keeps the delivered numbers in order. */
  lemma DeliverTracks(flats: seq<seq<Entry>>, next: nat, w: Writer, c: Cursors, h: History)
    requires Tracks(flats, next, w, c, h) && h.mid && c.start in h.offered
    ensures Tracks(flats, next, w, c, Delivered(h, c.start))
  {
    hide BehindOk, NoneAheadAt, AllAheadAt, DeliveredOk, Visible;
    DeliveredOnce(h, c.start, next);
  }

  lemma DeliveredOnce(h: History, s: nat, next: nat)
    requires DeliveredOk(h, s, next, s + 1) && s in h.offered
    ensures DeliveredOk(Delivered(h, s), s, next, s + 1)
  {
    hide Repeats;
    RepeatsSnoc(h.delivered, s);
    var d := h.delivered + [s];
    forall i, j | 0 <= i < j < |d| ensures d[i] <= d[j] {
      assert d[i] == h.delivered[i] && h.delivered[i] in h.delivered;
    }
  }

  // ---- Ending a flush ----

  /** Nothing in the watched logs is ahead of the reader. */
  ghost predicate AllRead(flats: seq<seq<Entry>>, c: Cursors)
    requires |flats| == LOG_ID_MAX
  {
    forall id: LogId, i :: id in c.mask && 0 <= i < |flats[id]| ==> !Ahead(c, id, i)
  }

  /** A flush ends with nothing ahead, or right after an entry the filter stopped at. */
  lemma EndTracks(flats: seq<seq<Entry>>, next: nat, w: Writer, c: Cursors, h: History)
    requires Tracks(flats, next, w, c, h)
    requires h.mid || AllRead(flats, c)
    ensures Tracks(flats, next, w, c.(start := c.start + 1), h.(mid := false, replay := false))
  {
    var d, g := c.(start := c.start + 1), h.(mid := false, replay := false);
    forall id: LogId, i | id in c.mask && 0 <= i < |flats[id]| && Visible(w, flats[id][i]) && flats[id][i].sequence < d.start
      ensures Accounted(g, flats[id][i].sequence)
    {
      if !h.mid {
        assert !Ahead(c, id, i);
        assert flats[id][..c.at[id]][i] == flats[id][i];
      }
    }
  }

  /** After a flush that ran to the end, every watched, visible entry has been dealt with. */
  lemma EndedFlushIsComplete(flats: seq<seq<Entry>>, next: nat, w: Writer, c: Cursors, h: History)
    requires Tracks(flats, next, w, c, h)
    requires AllRead(flats, c)
    ensures forall id: LogId, i :: id in c.mask && 0 <= i < |flats[id]| && Visible(w, flats[id][i]) ==>
      Accounted(h, flats[id][i].sequence)
    ensures forall id: LogId, i :: id in c.mask && 0 <= i < |flats[id]| ==> flats[id][i].sequence < Floor(c, h)
  {
    forall id: LogId, i | id in c.mask && 0 <= i < |flats[id]|
      ensures flats[id][i].sequence < Floor(c, h)
      ensures Visible(w, flats[id][i]) ==> Accounted(h, flats[id][i].sequence)
    {
      assert !Ahead(c, id, i);
      assert flats[id][..c.at[id]][i] == flats[id][i];
    }
  }

  /** With nothing ahead, nothing can be taken again. */
  lemma NextPastAll(flats: seq<seq<Entry>>, next: nat, w: Writer, c: Cursors, h: History)
    requires Tracks(flats, next, w, c, h) && AllRead(flats, c)
    ensures NextFrom(flats, c.mask, c.start, h) == Floor(c, h)
  {
  }

  // ---- Other threads' steps ----

  function NoteAppended(start: nat, h: History, n: nat): History
  {
    if n < Passed(start, h) then h.(late := h.late + {n}) else h
  }

  lemma SortedSnoc(es: seq<Entry>, e: Entry, next: nat)
    requires Sorted(es) && AllBelow(es, next) && e.sequence == next
    ensures Sorted(es + [e]) && AllBelow(es + [e], next + 1) && AllBelow(es, next + 1)
  {
  }

  lemma AppendOrdered(flats: seq<seq<Entry>>, next: nat, id: LogId, e: Entry)
    requires Ordered(flats, next) && e.sequence == next
    ensures Ordered(flats[id := flats[id] + [e]], next + 1)
  {
    var fs := flats[id := flats[id] + [e]];
    forall a | 0 <= a < LOG_ID_MAX ensures Sorted(fs[a]) && AllBelow(fs[a], next + 1) {
      assert Sorted(flats[a]) && AllBelow(flats[a], next);
      SortedSnoc(flats[a], e, next);
    }
    hide Sorted;
    forall a, b, i, j | 0 <= a < b < LOG_ID_MAX && 0 <= i < |fs[a]| && 0 <= j < |fs[b]|
      ensures fs[a][i].sequence != fs[b][j].sequence
    {
      assert AllBelow(flats[a], next) && AllBelow(flats[b], next);
      assert i < |flats[a]| ==> fs[a][i] == flats[a][i];
      assert j < |flats[b]| ==> fs[b][j] == flats[b][j];
    }
  }

  lemma AppendTracks(flats: seq<seq<Entry>>, next: nat, w: Writer, c: Cursors, h: History, id: LogId, e: Entry)
    requires Tracks(flats, next, w, c, h) && e.sequence == next
    ensures Tracks(flats[id := flats[id] + [e]], next + 1, w, c, NoteAppended(c.start, h, next))
  {
    var fs, g := flats[id := flats[id] + [e]], NoteAppended(c.start, h, next);
    forall b | b in c.at
      ensures c.at[b] <= |fs[b]| && AllBelow(fs[b][..c.at[b]], Floor(c, g))
    {
      assert fs[b][..c.at[b]] == flats[b][..c.at[b]];
    }
    forall b: LogId, i | b in c.mask && 0 <= i < |fs[b]| && Visible(w, fs[b][i]) && fs[b][i].sequence < Floor(c, g)
      ensures Accounted(g, fs[b][i].sequence)
    {
      if i < |flats[b]| { assert fs[b][i] == flats[b][i]; }
    }
  }

  /** Cursor after the first n entries of log `id` are gone: one that was inside them is dropped. */
  function Pruned(c: Cursors, id: LogId, n: nat, dropped: bool): Cursors
  {
    if id !in c.at then c
    else if dropped || c.at[id] < n then c.(at := c.at - {id})
    else c.(at := c.at[id := c.at[id] - n])
  }

  lemma PruneOrdered(flats: seq<seq<Entry>>, next: nat, id: LogId, n: nat)
    requires Ordered(flats, next) && n <= |flats[id]|
    ensures Ordered(flats[id := flats[id][n..]], next)
  {
    var fs := flats[id := flats[id][n..]];
    assert Sorted(flats[id]) && AllBelow(flats[id], next);
    assert forall a :: 0 <= a < LOG_ID_MAX && a != id ==> fs[a] == flats[a];
    assert Sorted(fs[id]) && AllBelow(fs[id], next);
  }

  /** Losing the first n entries of a log, and with them any cursor that was inside, keeps a reader on track. */
  lemma PruneTracks(flats: seq<seq<Entry>>, next: nat, w: Writer, c: Cursors, h: History, id: LogId, n: nat, dropped: bool)
    requires Tracks(flats, next, w, c, h) && n <= |flats[id]|
    requires dropped ==> id in c.at && c.at[id] <= n
    ensures Tracks(flats[id := flats[id][n..]], next, w, Pruned(c, id, n, dropped), h)
  {
    var fs, d := flats[id := flats[id][n..]], Pruned(c, id, n, dropped);
    forall b | b in d.at
      ensures d.at[b] <= |fs[b]| && AllBelow(fs[b][..d.at[b]], Floor(d, h))
    {
      if b == id {
        assert fs[b][..d.at[b]] == flats[b][..c.at[b]][n..];
      }
    }
    forall b: LogId, i | b in d.mask && 0 <= i < |fs[b]|
      ensures var k := if b == id then i + n else i;
        k < |flats[b]| && fs[b][i] == flats[b][k] && (Ahead(d, b, i) ==> Ahead(c, b, k))
    {
    }
    if h.mid && !h.replay {
      forall b: LogId, i | b in d.mask && 0 <= i < |fs[b]| && Ahead(d, b, i) ensures fs[b][i].sequence != d.start {
        var k := if b == id then i + n else i;
        assert Ahead(c, b, k) && fs[b][i] == flats[b][k];
      }
    }
    if h.replay {
      forall b: LogId, i | b in d.mask && 0 <= i < |fs[b]| && fs[b][i].sequence == d.start ensures Ahead(d, b, i) {
        var k := if b == id then i + n else i;
        assert fs[b][i] == flats[b][k] && Ahead(c, b, k);
      }
    }
    forall b: LogId, i | b in d.mask && 0 <= i < |fs[b]| && Visible(w, fs[b][i]) && fs[b][i].sequence < Floor(d, h)
      ensures Accounted(h, fs[b][i].sequence)
    {
      var k := if b == id then i + n else i;
      assert fs[b][i] == flats[b][k];
    }
  }

  /** The entries that do not come from `uid`. */
  function Others(es: seq<Entry>, uid: nat): seq<Entry>
  {
    if es == [] then []
    else if es[0].uid == uid then Others(es[1..], uid)
    else [es[0]] + Others(es[1..], uid)
  }

  lemma {:induction false} OthersConcat(a: seq<Entry>, b: seq<Entry>, uid: nat)
    ensures Others(a + b, uid) == Others(a, uid) + Others(b, uid)
  {
    if a == [] {
      assert a + b == b;
    } else {
      assert (a + b)[1..] == a[1..] + b;
      OthersConcat(a[1..], b, uid);
    }
  }

  lemma {:induction false} OthersNone(es: seq<Entry>, uid: nat)
    requires forall i :: 0 <= i < |es| ==> es[i].uid != uid
    ensures Others(es, uid) == es
  {
    if es != [] { OthersNone(es[1..], uid); }
  }

  lemma {:induction false} OthersWithout(es: seq<Entry>, uid: nat)
    ensures forall e :: e in Others(es, uid) <==> e in es && e.uid != uid
  {
    if es != [] {
      OthersWithout(es[1..], uid);
      assert es == [es[0]] + es[1..];
    }
  }

  lemma OthersSnoc(es: seq<Entry>, e: Entry, uid: nat)
    ensures Others(es + [e], uid) == if e.uid == uid then Others(es, uid) else Others(es, uid) + [e]
  {
    OthersConcat(es, [e], uid);
    assert [e][1..] == [];
  }

  /** Each remaining entry was there before, at an index that grows with its new one. */
  lemma {:induction false} OthersFrom(es: seq<Entry>, uid: nat, i: nat) returns (k: nat)
    requires i < |Others(es, uid)|
    ensures i <= k < |es| && es[k] == Others(es, uid)[i] && es[k].uid != uid
    ensures Others(es[..k], uid) == Others(es, uid)[..i]
  {
    if es[0].uid == uid {
      k := OthersFrom(es[1..], uid, i);
      k := k + 1;
      assert es[..k][1..] == es[1..][..k - 1];
    } else if i == 0 {
      k := 0;
    } else {
      k := OthersFrom(es[1..], uid, i - 1);
      k := k + 1;
      assert es[..k][1..] == es[1..][..k - 1];
    }
  }

  lemma OthersSorted(es: seq<Entry>, uid: nat, next: nat)
    requires Sorted(es) && AllBelow(es, next)
    ensures Sorted(Others(es, uid)) && AllBelow(Others(es, uid), next)
  {
    var r := Others(es, uid);
    hide Others;
    forall j | 0 <= j < |r|
      ensures r[j].sequence < next && forall i :: 0 <= i < j ==> r[i].sequence < r[j].sequence
    {
      var n := OthersFrom(es, uid, j);
      forall i | 0 <= i < j ensures r[i].sequence < r[j].sequence {
        assert r[i] == r[..j][i];
        var k := OthersFrom(es[..n], uid, i);
        assert es[k] == r[i];
      }
    }
  }

  lemma ClearOrdered(flats: seq<seq<Entry>>, next: nat, id: LogId, uid: nat)
    requires Ordered(flats, next)
    ensures Ordered(flats[id := Others(flats[id], uid)], next)
  {
    var fs: seq<seq<Entry>> := flats[id := Others(flats[id], uid)];
    assert Sorted(flats[id]) && AllBelow(flats[id], next);
    OthersSorted(flats[id], uid, next);
    forall a: nat, b: nat, i: nat, j: nat | a < b < LOG_ID_MAX && i < |fs[a]| && j < |fs[b]|
      ensures fs[a][i].sequence != fs[b][j].sequence
    {
      var k := i;
      if a == id { k := OthersFrom(flats[a], uid, i); }
      var m := j;
      if b == id { m := OthersFrom(flats[b], uid, j); }
      assert fs[a][i] == flats[a][k] && fs[b][j] == flats[b][m];
    }
  }

  predicate HasNumber(es: seq<Entry>, n: nat) { exists i :: 0 <= i < |es| && es[i].sequence == n }

  /** `left` is what a clear has left of log `id`: the entry a reader was writing lies ahead of it again exactly if it is there. */
  function NoteCleared(mask: set<LogId>, start: nat, h: History, id: LogId, left: seq<Entry>): History
  {
    if h.mid && id in mask && HasNumber(left, start) then h.(replay := true) else h
  }

  /** A uid clear drops every cursor into the log; only a reader writing an entry that the clear left meets one again. */
  lemma ClearTracks(flats: seq<seq<Entry>>, next: nat, w: Writer, c: Cursors, h: History, id: LogId, uid: nat)
    requires Ordered(flats, next) && Tracks(flats, next, w, c, h)
    ensures var left := Others(flats[id], uid);
      Tracks(flats[id := left], next, w, c.(at := c.at - {id}), NoteCleared(c.mask, c.start, h, id, left))
  {
    var left := Others(flats[id], uid);
    var fs, d, g := flats[id := left], c.(at := c.at - {id}), NoteCleared(c.mask, c.start, h, id, left);
    forall b: LogId, i | b in d.mask && 0 <= i < |fs[b]| && Visible(w, fs[b][i]) && fs[b][i].sequence < Floor(d, g)
      ensures Accounted(g, fs[b][i].sequence)
    {
      var k := i;
      if b == id { k := OthersFrom(flats[b], uid, i); }
      assert fs[b][i] == flats[b][k];
    }
    if g.mid && !g.replay {
      forall b: LogId, i | b in d.mask && 0 <= i < |fs[b]| && Ahead(d, b, i) ensures fs[b][i].sequence != d.start {
        if b != id { assert Ahead(c, b, i) && fs[b] == flats[b]; }
      }
    }
    if g.replay { ClearAhead(flats, next, c, h, id, uid); }
  }

  lemma ClearAhead(flats: seq<seq<Entry>>, next: nat, c: Cursors, h: History, id: LogId, uid: nat)
    requires Ordered(flats, next) && (h.replay ==> AllAheadAt(flats, c))
    requires h.replay || HasNumber(Others(flats[id], uid), c.start)
    ensures AllAheadAt(flats[id := Others(flats[id], uid)], c.(at := c.at - {id}))
  {
    var left := Others(flats[id], uid);
    var fs: seq<seq<Entry>> := flats[id := left];
    var d := c.(at := c.at - {id});
    forall b: LogId, i | b in d.mask && 0 <= i < |fs[b]| && fs[b][i].sequence == d.start ensures Ahead(d, b, i) {
      if b != id && !h.replay {
        var m :| 0 <= m < |left| && left[m].sequence == c.start;
        var k := OthersFrom(flats[id], uid, m);
        assert false;
      } else if b != id {
        assert Ahead(c, b, i);
      }
    }
  }

  // ---- How much a flush has left to do ----

  /** Entries ahead in the first k logs, counting one more for a log not located yet. */
  ghost function Remaining(flats: seq<seq<Entry>>, c: Cursors, k: nat): nat
    requires |flats| == LOG_ID_MAX && k <= LOG_ID_MAX
  {
    if k == 0 then 0 else Remaining(flats, c, k - 1) + RemainingIn(flats, c, k - 1)
  }

  ghost function RemainingIn(flats: seq<seq<Entry>>, c: Cursors, id: LogId): nat
    requires |flats| == LOG_ID_MAX
  {
    if id !in c.mask then 0
    else if id in c.at then (if c.at[id] <= |flats[id]| then |flats[id]| - c.at[id] else 0)
    else |flats[id]| + 1
  }

  lemma {:induction false} RemainingAdvance(flats: seq<seq<Entry>>, c: Cursors, d: Cursors, id: LogId, k: nat)
    requires |flats| == LOG_ID_MAX && k <= LOG_ID_MAX && Extends(flats, c, d)
    requires id in d.mask && id in d.at && d.at[id] < |flats[id]|
    ensures Remaining(flats, Advance(d, id), k) <= Remaining(flats, c, k)
    ensures id < k ==> Remaining(flats, Advance(d, id), k) < Remaining(flats, c, k)
  {
    if k > 0 {
      RemainingAdvance(flats, c, d, id, k - 1);
    }
  }

  // ---- What lies between two steps of a flush ----

  /** Nothing is numbered between what the reader is past and the entry it takes next. */
  lemma TakesTheNext(flats: seq<seq<Entry>>, next: nat, w: Writer, c: Cursors, h: History, floor: nat, id: LogId)
    requires Ordered(flats, next) && Tracks(flats, next, w, c, h) && floor == Floor(c, h) && Located(flats, c) && NextIs(flats, c, id)
    ensures forall b: LogId, j :: b in c.mask && 0 <= j < |flats[b]| && flats[b][j].sequence < flats[id][c.at[id]].sequence ==>
      flats[b][j].sequence < floor
  {
    forall b: LogId, j | b in c.mask && 0 <= j < |flats[b]| && flats[b][j].sequence < flats[id][c.at[id]].sequence
      ensures flats[b][j].sequence < floor
    {
      if flats[b][j].sequence >= floor {
        AllReadBelow(flats, c, floor, b, j);
        AheadIsLater(flats, next, c, id, b, j);
      }
    }
  }

  /** Entry e of log `id` is what a reader at `start` takes next: newer than all it was sent or the same once more, and nothing is skipped before it. */
  ghost predicate TakesNext(flats: seq<seq<Entry>>, mask: set<LogId>, start: nat, h: History, id: LogId, e: Entry)
    requires |flats| == LOG_ID_MAX
  {
    && id in mask && e in flats[id] && e.sequence >= NextFrom(flats, mask, start, h)
    && (Rereads(flats, mask, start, h) ==> e.sequence == start)
    && (forall x :: x in h.delivered ==> x <= e.sequence && (x == e.sequence ==> h.mid && x == start))
    && (forall b: LogId, j :: b in mask && 0 <= j < |flats[b]| && flats[b][j].sequence < e.sequence ==>
          flats[b][j].sequence < NextFrom(flats, mask, start, h))
  }

  /** From h to g nothing that was decided about numbers below `next` has changed. */
  ghost predicate Follows(h: History, g: History, next: nat)
  {
    && g.from == h.from && h.offered <= g.offered && h.delivered <= g.delivered && h.again <= g.again
    && (forall n :: n < next ==> (n in g.late <==> n in h.late))
  }

  /** A flush raises `start`, offers nothing below where it was, and forgets nothing. */
  ghost predicate KeptUp(start: nat, h: History, now: nat, g: History)
  {
    && start <= now && g.from == h.from && g.late == h.late && h.offered <= g.offered
    && (forall n :: n in g.offered && n !in h.offered ==> n >= start)
  }

  /** Everything about taking the entry that comes next after newly located logs were added. */
  lemma TakeFacts(flats: seq<seq<Entry>>, next: nat, w: Writer, c0: Cursors, c: Cursors, h: History, id: LogId)
    requires Ordered(flats, next) && Tracks(flats, next, w, c0, h) && Extends(flats, c0, c)
    requires Located(flats, c) && NextIs(flats, c, id)
    ensures id in c.mask && c.mask == c0.mask && c.start == c0.start
    ensures Remaining(flats, Advance(c, id), LOG_ID_MAX) < Remaining(flats, c0, LOG_ID_MAX)
    ensures var e := flats[id][c.at[id]];
      if e.sequence < c0.start then Tracks(flats, next, w, Advance(c, id), h)
      else Tracks(flats, next, w, Advance(c, id).(start := e.sequence), Take(h, w, e)) && TakesNext(flats, c0.mask, c0.start, h, id, e)
  {
    hide Tracks, Ordered, Remaining;
    ExtendsTracks(flats, next, w, c0, c, h);
    RemainingAdvance(flats, c0, c, id, LOG_ID_MAX);
    hide Extends;
    if flats[id][c.at[id]].sequence < c0.start {
      SkipOldTracks(flats, next, w, c, h, id);
    } else {
      TakeTracks(flats, next, w, c, h, id);
      TakesTheNext(flats, next, w, c, h, Floor(c, h), id);
    }
  }

  /** start + 1 with nothing taken does not change what remains. */
  lemma {:induction false} RemainingStart(flats: seq<seq<Entry>>, c: Cursors, s: nat, k: nat)
    requires |flats| == LOG_ID_MAX && k <= LOG_ID_MAX
    ensures Remaining(flats, c.(start := s), k) == Remaining(flats, c, k)
  {
    if k > 0 { RemainingStart(flats, c, s, k - 1); }
  }

  lemma NothingAhead(flats: seq<seq<Entry>>, c: Cursors, needed: set<LogId>)
    requires |flats| == LOG_ID_MAX && forall id: LogId :: UpToDate(flats, c, needed, id)
    requires forall id :: id in c.at ==> id in needed
    ensures AllRead(flats, c)
  {
    forall id: LogId, i | id in c.mask && 0 <= i < |flats[id]|
      ensures !Ahead(c, id, i)
    {
      assert UpToDate(flats, c, needed, id);
    }
  }

  lemma UpToDateLocated(flats: seq<seq<Entry>>, c: Cursors, needed: set<LogId>)
    requires |flats| == LOG_ID_MAX && forall id: LogId :: UpToDate(flats, c, needed, id)
    requires c.at.Keys <= c.mask
    ensures Located(flats, c)
  {
    forall id: LogId
      ensures id in c.mask && flats[id] != [] ==> id in c.at
      ensures id in c.at ==> c.at[id] <= |flats[id]|
    {
      assert UpToDate(flats, c, needed, id);
    }
  }
}
