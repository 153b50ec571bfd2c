/**
 The running counters of LogStatistics for one log id, and what it means for them to agree with the
 elements actually stored.
 */
module LogStats {
  import opened EntryLayout

  const AID_SYSTEM := 1000

  /** What the counters look at: `size` is the counted size, of which `msgLen` goes away when the message is dropped. */
  datatype Element = Element(uid: nat, pid: nat, size: nat, msgLen: nat, dropped: nat)

  /** Something is counted for the element, so its table row cannot vanish while it is stored. */
  predicate Countable(e: Element) { e.msgLen <= e.size && (e.size > 0 || e.dropped > 0) }
  predicate AllCountable(es: seq<Element>) { forall i :: 0 <= i < |es| ==> Countable(es[i]) }

  /** uidTable is keyed by uid; pidSystemTable by pid, for elements of AID_SYSTEM only. */
  datatype Table = ByUid | BySystemPid

  predicate Keyed(t: Table, e: Element, k: nat)
  {
    match t
    case ByUid => e.uid == k
    case BySystemPid => e.uid == AID_SYSTEM && e.pid == k
  }

  /** EntryBaseDropped. */
  datatype Row = Row(size: int, dropped: int)

  datatype Counters = Counters(sizes: int, elements: int, droppedElements: int, uids: map<nat, Row>, systemPids: map<nat, Row>,
                               sizesTotal: nat, elementsTotal: nat)

  // ---- LogHashtable::Add, Subtract, Drop, Erase ----

  function AddRow(rows: map<nat, Row>, k: nat, e: Element): map<nat, Row>
  {
    if k in rows then rows[k := Row(rows[k].size + e.size, rows[k].dropped + e.dropped)]
    else rows[k := Row(e.size, e.dropped)]
  }

  function SubtractRow(rows: map<nat, Row>, k: nat, e: Element): map<nat, Row>
  {
    if k !in rows then rows
    else
      var row := Row(rows[k].size - e.size, rows[k].dropped - e.dropped);
      if row.size == 0 && row.dropped == 0 then rows - {k} else rows[k := row]
  }

  function DropRow(rows: map<nat, Row>, k: nat, e: Element): map<nat, Row>
  {
    if k in rows then rows[k := Row(rows[k].size - e.msgLen, rows[k].dropped + 1)] else rows
  }

  function EraseRow(rows: map<nat, Row>, k: nat, e: Element): map<nat, Row>
  {
    if k in rows then rows[k := rows[k].(size := rows[k].size - e.size)] else rows
  }

  // ---- LogStatistics, per log id; the kernel log keeps no tables ----

  function AddTotal(c: Counters, size: nat): Counters
  {
    c.(sizesTotal := c.sizesTotal + size, elementsTotal := c.elementsTotal + 1)
  }

  function Add(c: Counters, e: Element, kernel: bool): Counters
  {
    var d := c.(sizes := c.sizes + e.size, elements := c.elements + 1);
    var f := if e.dropped > 0 then d.(droppedElements := d.droppedElements + 1) else AddTotal(d, e.size);
    if kernel then f
    else f.(uids := AddRow(f.uids, e.uid, e),
            systemPids := if e.uid == AID_SYSTEM then AddRow(f.systemPids, e.pid, e) else f.systemPids)
  }

  function Subtract(c: Counters, e: Element, kernel: bool): Counters
  {
    var d := c.(sizes := c.sizes - e.size, elements := c.elements - 1,
                droppedElements := if e.dropped > 0 then c.droppedElements - 1 else c.droppedElements);
    if kernel then d
    else d.(uids := SubtractRow(d.uids, e.uid, e),
            systemPids := if e.uid == AID_SYSTEM then SubtractRow(d.systemPids, e.pid, e) else d.systemPids)
  }

  function Drop(c: Counters, e: Element): Counters
  {
    c.(sizes := c.sizes - e.msgLen, droppedElements := c.droppedElements + 1, uids := DropRow(c.uids, e.uid, e),
       systemPids := if e.uid == AID_SYSTEM then DropRow(c.systemPids, e.pid, e) else c.systemPids)
  }

  function Erase(c: Counters, e: Element): Counters
  {
    c.(sizes := c.sizes - e.size, elements := c.elements - 1, droppedElements := c.droppedElements - 1,
       uids := EraseRow(c.uids, e.uid, e),
       systemPids := if e.uid == AID_SYSTEM then EraseRow(c.systemPids, e.pid, e) else c.systemPids)
  }

  /** Only the counters of log `id` have changed, and not its lifetime totals. */
  predicate OnlyThis(cs: seq<Counters>, ds: seq<Counters>, id: nat)
  {
    && id < |cs| == |ds| && ds == cs[id := ds[id]]
    && ds[id].sizesTotal == cs[id].sizesTotal && ds[id].elementsTotal == cs[id].elementsTotal
  }

  /** n bytes more have come in for log `id`, whatever has become of them and of others. */
  predicate OneCameIn(cs: seq<Counters>, ds: seq<Counters>, id: nat, n: nat)
  {
    && id < |cs| == |ds| && ds == cs[id := ds[id]]
    && ds[id].sizesTotal == cs[id].sizesTotal + n && ds[id].elementsTotal == cs[id].elementsTotal + 1
  }

  const ZERO := Counters(0, 0, 0, map[], map[], 0, 0)

  // ---- What the counters should be ----

  function SizeSum(es: seq<Element>): nat { if es == [] then 0 else es[0].size + SizeSum(es[1..]) }
  function DroppedCount(es: seq<Element>): nat { if es == [] then 0 else (if es[0].dropped > 0 then 1 else 0) + DroppedCount(es[1..]) }

  predicate Has(t: Table, es: seq<Element>, k: nat) { exists i :: 0 <= i < |es| && Keyed(t, es[i], k) }

  function RowSum(t: Table, es: seq<Element>, k: nat): Row
  {
    if es == [] then Row(0, 0)
    else
      var r := RowSum(t, es[1..], k);
      if Keyed(t, es[0], k) then Row(es[0].size + r.size, es[0].dropped + r.dropped) else r
  }

  /** A row exists exactly for the keys present, and holds exactly their sums. */
  ghost predicate RowsAgree(t: Table, rows: map<nat, Row>, es: seq<Element>)
  {
    && (forall k :: k in rows <==> Has(t, es, k))
    && (forall k :: k in rows ==> rows[k] == RowSum(t, es, k))
  }

  ghost predicate Agrees(c: Counters, es: seq<Element>, kernel: bool)
  {
    && c.sizes == SizeSum(es) && c.elements == |es| && c.droppedElements == DroppedCount(es)
    && (!kernel ==> RowsAgree(ByUid, c.uids, es) && RowsAgree(BySystemPid, c.systemPids, es))
  }

  // ---- Sums over concatenations ----

  lemma {:induction false} SumConcat(a: seq<Element>, b: seq<Element>)
    ensures SizeSum(a + b) == SizeSum(a) + SizeSum(b)
    ensures DroppedCount(a + b) == DroppedCount(a) + DroppedCount(b)
  {
    if a == [] {
      assert a + b == b;
    } else {
      assert (a + b)[1..] == a[1..] + b;
      SumConcat(a[1..], b);
    }
  }

  lemma {:induction false} RowConcat(t: Table, a: seq<Element>, b: seq<Element>, k: nat)
    ensures RowSum(t, a + b, k) == Row(RowSum(t, a, k).size + RowSum(t, b, k).size, RowSum(t, a, k).dropped + RowSum(t, b, k).dropped)
  {
    if a == [] {
      assert a + b == b;
    } else {
      assert (a + b)[1..] == a[1..] + b;
      RowConcat(t, a[1..], b, k);
    }
  }

  /** A key has a non-zero row exactly when some stored element carries it. */
  lemma {:induction false} RowPresent(t: Table, es: seq<Element>, k: nat)
    requires AllCountable(es)
    ensures RowSum(t, es, k).size >= 0 && RowSum(t, es, k).dropped >= 0
    ensures Has(t, es, k) <==> RowSum(t, es, k) != Row(0, 0)
  {
    if es != [] {
      RowPresent(t, es[1..], k);
      assert Countable(es[0]);
      if Has(t, es[1..], k) {
        var i :| 0 <= i < |es[1..]| && Keyed(t, es[1..][i], k);
        assert Keyed(t, es[i + 1], k);
      }
      if Has(t, es, k) && !Keyed(t, es[0], k) {
        var i :| 0 <= i < |es| && Keyed(t, es[i], k);
        assert Keyed(t, es[1..][i - 1], k);
      }
    }
  }

  lemma RowOne(t: Table, a: seq<Element>, e: Element, b: seq<Element>, k: nat)
    ensures RowSum(t, a + [e] + b, k) ==
      if Keyed(t, e, k) then Row(RowSum(t, a + b, k).size + e.size, RowSum(t, a + b, k).dropped + e.dropped) else RowSum(t, a + b, k)
  {
    RowConcat(t, a + [e], b, k);
    RowConcat(t, a, [e], k);
    RowConcat(t, a, b, k);
    assert [e][1..] == [];
  }

  lemma SumOne(a: seq<Element>, e: Element, b: seq<Element>)
    ensures SizeSum(a + [e] + b) == SizeSum(a + b) + e.size
    ensures DroppedCount(a + [e] + b) == DroppedCount(a + b) + if e.dropped > 0 then 1 else 0
  {
    SumConcat(a + [e], b);
    SumConcat(a, [e]);
    SumConcat(a, b);
    assert [e][1..] == [];
  }

  /** Rows agree exactly when they are the non-zero sums. */
  lemma AgreeBySums(t: Table, rows: map<nat, Row>, es: seq<Element>)
    requires AllCountable(es)
    ensures RowsAgree(t, rows, es) <==>
      forall k: nat :: (k in rows <==> RowSum(t, es, k) != Row(0, 0)) && (k in rows ==> rows[k] == RowSum(t, es, k))
  {
    forall k: nat ensures Has(t, es, k) <==> RowSum(t, es, k) != Row(0, 0) {
      RowPresent(t, es, k);
    }
  }

  lemma CountableParts(a: seq<Element>, e: Element, b: seq<Element>)
    requires AllCountable(a + [e] + b)
    ensures Countable(e) && AllCountable(a + b)
  {
    var s := a + [e] + b;
    assert s[|a|] == e;
    forall i | 0 <= i < |a + b| ensures Countable((a + b)[i]) {
      assert (a + b)[i] == s[if i < |a| then i else i + 1];
    }
  }

  // ---- Each update keeps agreement ----

  lemma AddRowAgrees(t: Table, rows: map<nat, Row>, es: seq<Element>, e: Element, key: nat)
    requires AllCountable(es) && Countable(e) && RowsAgree(t, rows, es)
    requires forall k: nat :: Keyed(t, e, k) <==> k == key
    ensures RowsAgree(t, AddRow(rows, key, e), es + [e])
  {
    AgreeBySums(t, rows, es);
    AgreeBySums(t, AddRow(rows, key, e), es + [e]);
    forall k: nat
      ensures RowSum(t, es + [e], k) == if k == key then Row(RowSum(t, es, k).size + e.size, RowSum(t, es, k).dropped + e.dropped) else RowSum(t, es, k)
      ensures RowSum(t, es, k).size >= 0 && RowSum(t, es, k).dropped >= 0
    {
      RowOne(t, es, e, [], k);
      assert es + [e] + [] == es + [e] && es + [] == es;
      RowPresent(t, es, k);
    }
  }

  lemma SubtractRowAgrees(t: Table, rows: map<nat, Row>, a: seq<Element>, e: Element, b: seq<Element>, key: nat)
    requires AllCountable(a + [e] + b) && RowsAgree(t, rows, a + [e] + b)
    requires forall k: nat :: Keyed(t, e, k) <==> k == key
    ensures RowsAgree(t, SubtractRow(rows, key, e), a + b)
  {
    CountableParts(a, e, b);
    AgreeBySums(t, rows, a + [e] + b);
    AgreeBySums(t, SubtractRow(rows, key, e), a + b);
    forall k: nat
      ensures RowSum(t, a + [e] + b, k) == if k == key then Row(RowSum(t, a + b, k).size + e.size, RowSum(t, a + b, k).dropped + e.dropped) else RowSum(t, a + b, k)
      ensures RowSum(t, a + b, k).size >= 0 && RowSum(t, a + b, k).dropped >= 0
    {
      RowOne(t, a, e, b, k);
      RowPresent(t, a + b, k);
    }
  }

  lemma OtherRowsAgree(t: Table, rows: map<nat, Row>, a: seq<Element>, e: Element, b: seq<Element>)
    requires AllCountable(a + [e] + b)
    requires forall k: nat :: !Keyed(t, e, k)
    ensures RowsAgree(t, rows, a + [e] + b) <==> RowsAgree(t, rows, a + b)
  {
    CountableParts(a, e, b);
    AgreeBySums(t, rows, a + [e] + b);
    AgreeBySums(t, rows, a + b);
    forall k: nat ensures RowSum(t, a + [e] + b, k) == RowSum(t, a + b, k) { RowOne(t, a, e, b, k); }
  }

  /** LogStatistics::Add follows an element being appended. */
  lemma AddAgrees(c: Counters, es: seq<Element>, e: Element, kernel: bool)
    requires AllCountable(es) && Countable(e) && Agrees(c, es, kernel)
    ensures Agrees(Add(c, e, kernel), es + [e], kernel)
  {
    hide RowsAgree;
    SumOne(es, e, []);
    assert es + [e] + [] == es + [e] && es + [] == es;
    if !kernel {
      AddRowAgrees(ByUid, c.uids, es, e, e.uid);
      if e.uid == AID_SYSTEM {
        AddRowAgrees(BySystemPid, c.systemPids, es, e, e.pid);
      } else {
        OtherRowsAgree(BySystemPid, c.systemPids, es, e, []);
      }
    }
  }

  /** LogStatistics::Subtract follows an element being removed from anywhere. */
  lemma SubtractAgrees(c: Counters, a: seq<Element>, e: Element, b: seq<Element>, kernel: bool)
    requires AllCountable(a + [e] + b) && Agrees(c, a + [e] + b, kernel)
    ensures Agrees(Subtract(c, e, kernel), a + b, kernel)
  {
    hide RowsAgree;
    SumOne(a, e, b);
    if !kernel {
      SubtractRowAgrees(ByUid, c.uids, a, e, b, e.uid);
      if e.uid == AID_SYSTEM {
        SubtractRowAgrees(BySystemPid, c.systemPids, a, e, b, e.pid);
      } else {
        OtherRowsAgree(BySystemPid, c.systemPids, a, e, b);
      }
    }
  }

  /** What is left of an element whose message is dropped. */
  function Dropped(e: Element): Element
    requires Countable(e)
  {
    Element(e.uid, e.pid, e.size - e.msgLen, 0, 1)
  }

  lemma DropRowAgrees(t: Table, rows: map<nat, Row>, a: seq<Element>, e: Element, b: seq<Element>, key: nat)
    requires AllCountable(a + [e] + b) && Countable(e) && e.dropped == 0 && RowsAgree(t, rows, a + [e] + b)
    requires forall k: nat :: Keyed(t, e, k) <==> k == key
    ensures RowsAgree(t, DropRow(rows, key, e), a + [Dropped(e)] + b)
  {
    var now := DropRow(rows, key, e);
    assert (a + [e] + b)[|a|] == e && Keyed(t, e, key);
    forall k: nat
      ensures Has(t, a + [Dropped(e)] + b, k) <==> Has(t, a + [e] + b, k)
      ensures k in now ==> now[k] == RowSum(t, a + [Dropped(e)] + b, k)
    {
      RowOne(t, a, e, b, k);
      RowOne(t, a, Dropped(e), b, k);
      SameKeys(t, a, e, Dropped(e), b, k);
    }
  }

  lemma SameKeys(t: Table, a: seq<Element>, e: Element, f: Element, b: seq<Element>, k: nat)
    requires e.uid == f.uid && e.pid == f.pid
    ensures Has(t, a + [f] + b, k) <==> Has(t, a + [e] + b, k)
  {
    assert forall i :: 0 <= i < |a + [e] + b| ==> (Keyed(t, (a + [e] + b)[i], k) <==> Keyed(t, (a + [f] + b)[i], k));
  }

  /** LogStatistics::Drop followed by SetDropped(1), whatever the log. */
  lemma DropAgrees(c: Counters, a: seq<Element>, e: Element, b: seq<Element>, kernel: bool)
    requires AllCountable(a + [e] + b) && Countable(e) && e.dropped == 0 && Agrees(c, a + [e] + b, kernel)
    ensures Agrees(Drop(c, e), a + [Dropped(e)] + b, kernel)
  {
    hide RowsAgree;
    SumOne(a, e, b);
    SumOne(a, Dropped(e), b);
    if !kernel {
      DropRowAgrees(ByUid, c.uids, a, e, b, e.uid);
      if e.uid == AID_SYSTEM {
        DropRowAgrees(BySystemPid, c.systemPids, a, e, b, e.pid);
      } else {
        UnkeyedRowsAgree(BySystemPid, c.systemPids, a, e, Dropped(e), b);
      }
    }
  }

  lemma UnkeyedRowsAgree(t: Table, rows: map<nat, Row>, a: seq<Element>, e: Element, f: Element, b: seq<Element>)
    requires e.uid == f.uid && e.pid == f.pid && RowsAgree(t, rows, a + [e] + b)
    requires forall k: nat :: !Keyed(t, e, k)
    ensures RowsAgree(t, rows, a + [f] + b)
  {
    forall k: nat
      ensures Has(t, a + [f] + b, k) <==> Has(t, a + [e] + b, k)
      ensures RowSum(t, a + [f] + b, k) == RowSum(t, a + [e] + b, k)
    {
      RowOne(t, a, e, b, k);
      RowOne(t, a, f, b, k);
      SameKeys(t, a, e, f, b, k);
    }
  }

  /** `into` takes over the dropped count of `e`, which goes away. */
  function Absorbed(into: Element, e: Element): Element { into.(dropped := into.dropped + e.dropped) }

  lemma RowTwo(t: Table, a: seq<Element>, f: Element, b: seq<Element>, e: Element, d: seq<Element>, k: nat)
    requires e.uid == f.uid && e.pid == f.pid
    ensures var r := RowSum(t, a + b + d, k);
      && RowSum(t, a + [f] + b + [e] + d, k) ==
           (if Keyed(t, e, k) then Row(r.size + f.size + e.size, r.dropped + f.dropped + e.dropped) else r)
      && RowSum(t, a + [Absorbed(f, e)] + b + d, k) ==
           (if Keyed(t, e, k) then Row(r.size + f.size, r.dropped + f.dropped + e.dropped) else r)
  {
    RowOne(t, a + [f] + b, e, d, k);
    assert a + [f] + b + d == a + [f] + (b + d) && a + b + d == a + (b + d);
    RowOne(t, a, f, b + d, k);
    assert a + [Absorbed(f, e)] + b + d == a + [Absorbed(f, e)] + (b + d);
    RowOne(t, a, Absorbed(f, e), b + d, k);
  }

  lemma HasTwo(t: Table, a: seq<Element>, f: Element, b: seq<Element>, e: Element, d: seq<Element>, k: nat)
    requires e.uid == f.uid && e.pid == f.pid
    ensures Has(t, a + [f] + b + [e] + d, k) <==> Has(t, a + [Absorbed(f, e)] + b + d, k)
  {
    var s, r := a + [f] + b + [e] + d, a + [Absorbed(f, e)] + b + d;
    var n, m := |a|, |a| + 1 + |b|;
    assert forall i :: 0 <= i < m && i != n ==> s[i] == r[i];
    assert forall i :: m < i < |s| ==> s[i] == r[i - 1];
    assert s[n] == f && s[m] == e && r[n] == Absorbed(f, e);
    assert Keyed(t, f, k) == Keyed(t, e, k) == Keyed(t, Absorbed(f, e), k);
    if Has(t, r, k) {
      var i :| 0 <= i < |r| && Keyed(t, r[i], k);
      assert Keyed(t, s[if i < m then i else i + 1], k);
    }
    if Has(t, s, k) {
      var i :| 0 <= i < |s| && Keyed(t, s[i], k);
      assert Keyed(t, r[if i < m then i else if i == m then n else i - 1], k);
    }
  }

  lemma EraseRowAgrees(t: Table, rows: map<nat, Row>, a: seq<Element>, f: Element, b: seq<Element>, e: Element, d: seq<Element>, key: nat)
    requires e.uid == f.uid && e.pid == f.pid && RowsAgree(t, rows, a + [f] + b + [e] + d)
    requires forall k: nat :: Keyed(t, e, k) <==> k == key
    ensures RowsAgree(t, EraseRow(rows, key, e), a + [Absorbed(f, e)] + b + d)
  {
    forall k: nat
      ensures Has(t, a + [f] + b + [e] + d, k) <==> Has(t, a + [Absorbed(f, e)] + b + d, k)
      ensures k in rows ==> EraseRow(rows, key, e)[k] == RowSum(t, a + [Absorbed(f, e)] + b + d, k)
    {
      RowTwo(t, a, f, b, e, d, k);
      HasTwo(t, a, f, b, e, d, k);
    }
  }

  lemma SumTwo(a: seq<Element>, f: Element, b: seq<Element>, e: Element, d: seq<Element>)
    requires f.dropped > 0 && e.dropped > 0
    ensures SizeSum(a + [f] + b + [e] + d) == SizeSum(a + [Absorbed(f, e)] + b + d) + e.size
    ensures DroppedCount(a + [f] + b + [e] + d) == DroppedCount(a + [Absorbed(f, e)] + b + d) + 1
  {
    SumOne(a + [f] + b, e, d);
    assert a + [f] + b + d == a + [f] + (b + d);
    SumOne(a, f, b + d);
    assert a + [Absorbed(f, e)] + b + d == a + [Absorbed(f, e)] + (b + d);
    SumOne(a, Absorbed(f, e), b + d);
  }

  /** LogStatistics::Erase after an earlier chatty element of the same source took over the count. */
  lemma EraseAgrees(c: Counters, a: seq<Element>, f: Element, b: seq<Element>, e: Element, d: seq<Element>, kernel: bool)
    requires e.uid == f.uid && e.pid == f.pid && f.dropped > 0 && e.dropped > 0
    requires Agrees(c, a + [f] + b + [e] + d, kernel)
    ensures Agrees(Erase(c, e), a + [Absorbed(f, e)] + b + d, kernel)
  {
    hide RowsAgree, SizeSum, DroppedCount;
    SumTwo(a, f, b, e, d);
    if !kernel {
      EraseRowAgrees(ByUid, c.uids, a, f, b, e, d, e.uid);
      if e.uid == AID_SYSTEM {
        EraseRowAgrees(BySystemPid, c.systemPids, a, f, b, e, d, e.pid);
      } else {
        UntouchedRowsAgree(BySystemPid, c.systemPids, a, f, b, e, d);
      }
    }
  }

  lemma UntouchedRowsAgree(t: Table, rows: map<nat, Row>, a: seq<Element>, f: Element, b: seq<Element>, e: Element, d: seq<Element>)
    requires e.uid == f.uid && e.pid == f.pid && RowsAgree(t, rows, a + [f] + b + [e] + d)
    requires forall k: nat :: !Keyed(t, e, k)
    ensures RowsAgree(t, rows, a + [Absorbed(f, e)] + b + d)
  {
    forall k: nat
      ensures Has(t, a + [f] + b + [e] + d, k) <==> Has(t, a + [Absorbed(f, e)] + b + d, k)
      ensures RowSum(t, a + [f] + b + [e] + d, k) == RowSum(t, a + [Absorbed(f, e)] + b + d, k)
    {
      RowTwo(t, a, f, b, e, d, k);
      HasTwo(t, a, f, b, e, d, k);
    }
  }

  // ---- The counted form of log entries ----

  /** SerializedLogEntry::ToLogStatisticsElement, with Add's choice of which length to count. */
  function Counted(e: Entry, trackTotal: bool): Element
  {
    Element(e.uid, e.pid, if trackTotal then TotalLen(e) else |e.msg|, |e.msg|, 0)
  }

  function CountedAll(es: seq<Entry>, trackTotal: bool): (r: seq<Element>)
    ensures |r| == |es| && AllCountable(r)
    ensures forall i :: 0 <= i < |es| ==> r[i] == Counted(es[i], trackTotal)
  {
    seq(|es|, i requires 0 <= i < |es| => Counted(es[i], trackTotal))
  }

  lemma CountedConcat(a: seq<Entry>, b: seq<Entry>, trackTotal: bool)
    ensures CountedAll(a + b, trackTotal) == CountedAll(a, trackTotal) + CountedAll(b, trackTotal)
  {
  }

  /** Counting one entry less, wherever it was. */
  lemma CountOneLess(c: Counters, a: seq<Entry>, e: Entry, b: seq<Entry>, kernel: bool, trackTotal: bool)
    requires Agrees(c, CountedAll(a + [e] + b, trackTotal), kernel)
    ensures Agrees(Subtract(c, Counted(e, trackTotal), kernel), CountedAll(a + b, trackTotal), kernel)
  {
    hide Agrees, Subtract;
    var x, y := CountedAll(a, trackTotal), CountedAll(b, trackTotal);
    CountedConcat(a + [e], b, trackTotal);
    CountedConcat(a, [e], trackTotal);
    CountedConcat(a, b, trackTotal);
    assert CountedAll([e], trackTotal) == [Counted(e, trackTotal)];
    SubtractAgrees(c, x, Counted(e, trackTotal), y, kernel);
  }

  lemma CountOneMore(c: Counters, es: seq<Entry>, e: Entry, kernel: bool, trackTotal: bool)
    requires Agrees(c, CountedAll(es, trackTotal), kernel)
    ensures Agrees(Add(c, Counted(e, trackTotal), kernel), CountedAll(es + [e], trackTotal), kernel)
  {
    hide Agrees, Add;
    CountedConcat(es, [e], trackTotal);
    assert CountedAll([e], trackTotal) == [Counted(e, trackTotal)];
    AddAgrees(c, CountedAll(es, trackTotal), Counted(e, trackTotal), kernel);
  }

  // ---- In terms of the entries themselves ----

  /** Counted bytes: messages alone, or with the header each has in a chunk. */
  function BytesIn(es: seq<Entry>, trackTotal: bool): nat
  {
    if es == [] then 0 else BytesIn(es[..|es| - 1], trackTotal) + |es[|es| - 1].msg| + if trackTotal then ENTRY_HEADER else 0
  }

  function OfUid(es: seq<Entry>, uid: nat): seq<Entry>
  {
    if es == [] then [] else OfUid(es[..|es| - 1], uid) + if es[|es| - 1].uid == uid then [es[|es| - 1]] else []
  }

  lemma CountedSnoc(es: seq<Entry>, e: Entry, trackTotal: bool, uid: nat)
    ensures var a, b, n := CountedAll(es, trackTotal), CountedAll(es + [e], trackTotal), |e.msg| + if trackTotal then ENTRY_HEADER else 0;
      && SizeSum(b) == SizeSum(a) + n && DroppedCount(b) == DroppedCount(a)
      && RowSum(ByUid, b, uid) == if e.uid == uid then Row(RowSum(ByUid, a, uid).size + n, RowSum(ByUid, a, uid).dropped) else RowSum(ByUid, a, uid)
  {
    CountedConcat(es, [e], trackTotal);
    hide CountedAll;
    var a, x := CountedAll(es, trackTotal), [Counted(e, trackTotal)];
    assert CountedAll([e], trackTotal) == x && x[1..] == [];
    SumConcat(a, x);
    RowConcat(ByUid, a, x, uid);
  }

  lemma BytesSnoc(es: seq<Entry>, e: Entry, trackTotal: bool)
    ensures BytesIn(es + [e], trackTotal) == BytesIn(es, trackTotal) + |e.msg| + if trackTotal then ENTRY_HEADER else 0
  {
    assert (es + [e])[..|es|] == es;
  }

  lemma {:induction false} SumsAre(es: seq<Entry>, trackTotal: bool, uid: nat)
    ensures SizeSum(CountedAll(es, trackTotal)) == BytesIn(es, trackTotal) && DroppedCount(CountedAll(es, trackTotal)) == 0
    ensures RowSum(ByUid, CountedAll(es, trackTotal), uid) == Row(BytesIn(OfUid(es, uid), trackTotal), 0)
  {
    if es != [] {
      hide SizeSum, DroppedCount, RowSum, BytesIn, Counted;
      var init, e := es[..|es| - 1], es[|es| - 1];
      SumsAre(init, trackTotal, uid);
      assert es == init + [e];
      CountedSnoc(init, e, trackTotal, uid);
      BytesSnoc(init, e, trackTotal);
      BytesSnoc(OfUid(init, uid), e, trackTotal);
      if e.uid != uid { assert OfUid(es, uid) == OfUid(init, uid); }
    } else {
      NothingCounted(trackTotal, uid);
    }
  }

  lemma NothingCounted(trackTotal: bool, uid: nat)
    ensures BytesIn([], trackTotal) == SizeSum([]) == DroppedCount([]) == 0 && RowSum(ByUid, [], uid) == Row(0, 0) && CountedAll([], trackTotal) == []
  {
  }

  /** What agreeing means: sizes, numbers, and a row for every uid that has an entry, and for no other, with its bytes. */
  lemma AgreesMeans(c: Counters, es: seq<Entry>, kernel: bool, trackTotal: bool)
    requires Agrees(c, CountedAll(es, trackTotal), kernel)
    ensures c.sizes == BytesIn(es, trackTotal) && c.elements == |es| && c.droppedElements == 0
    ensures !kernel ==> forall uid: nat :: uid in c.uids <==> exists i :: 0 <= i < |es| && es[i].uid == uid
    ensures !kernel ==> forall uid :: uid in c.uids ==> c.uids[uid] == Row(BytesIn(OfUid(es, uid), trackTotal), 0)
    ensures !kernel ==> forall pid: nat :: pid in c.systemPids <==> exists i :: 0 <= i < |es| && es[i].uid == 1000 && es[i].pid == pid
  {
    hide SizeSum, DroppedCount, RowSum;
    var rs := CountedAll(es, trackTotal);
    SumsAre(es, trackTotal, 0);
    if !kernel {
      forall uid: nat ensures uid in c.uids <==> exists i :: 0 <= i < |es| && es[i].uid == uid {
        assert uid in c.uids <==> Has(ByUid, rs, uid);
        if i :| 0 <= i < |es| && es[i].uid == uid { assert Keyed(ByUid, rs[i], uid); }
      }
      forall uid | uid in c.uids ensures c.uids[uid] == Row(BytesIn(OfUid(es, uid), trackTotal), 0) { SumsAre(es, trackTotal, uid); }
      forall pid: nat ensures pid in c.systemPids <==> exists i :: 0 <= i < |es| && es[i].uid == 1000 && es[i].pid == pid {
        assert pid in c.systemPids <==> Has(BySystemPid, rs, pid);
        if i :| 0 <= i < |es| && es[i].uid == 1000 && es[i].pid == pid { assert Keyed(BySystemPid, rs[i], pid); }
      }
    }
  }
}
