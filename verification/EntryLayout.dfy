/** The packed byte layout of one log entry inside a chunk, and byte offsets into a run of entries. */
module EntryLayout {
  import opened Bytes

  const ENTRY_HEADER := 30      // packed header: uid, pid, tid, sequence, realtime, msg_len
  const MAX_PAYLOAD := 4068     // LOGGER_ENTRY_MAX_PAYLOAD

  datatype LogTime = LogTime(sec: uint32, nsec: uint32)

  /** What a stored payload looks like: never empty, never above the payload limit. */
  type Payload = m: seq<byte> | 0 < |m| <= MAX_PAYLOAD witness [0]

  datatype Entry = Entry(uid: uint32, pid: uint32, tid: uint32, sequence: uint64, realtime: LogTime, msg: Payload)

  function TotalLen(e: Entry): nat { ENTRY_HEADER + |e.msg| }

  function EncodeHeader(e: Entry): (s: seq<byte>)
    ensures |s| == ENTRY_HEADER
  {
    ToLE(4, e.uid) + ToLE(4, e.pid) + ToLE(4, e.tid) + ToLE(8, e.sequence)
    + ToLE(4, e.realtime.sec) + ToLE(4, e.realtime.nsec) + ToLE(2, |e.msg|)
  }

  function Encode(e: Entry): (s: seq<byte>)
    ensures |s| == TotalLen(e)
  {
    EncodeHeader(e) + e.msg
  }

  /** Where each field of the packed struct lies. */
  lemma FieldsAt(e: Entry)
    ensures var s := Encode(e);
      && s[0..4] == ToLE(4, e.uid) && s[4..8] == ToLE(4, e.pid) && s[8..12] == ToLE(4, e.tid) && s[12..20] == ToLE(8, e.sequence)
      && s[20..24] == ToLE(4, e.realtime.sec) && s[24..28] == ToLE(4, e.realtime.nsec) && s[28..30] == ToLE(2, |e.msg|) && s[30..] == e.msg
  {
  }

  datatype Option<+T> = None | Some(value: T)

  /** Reads one fixed-width field of a header. */
  function Field(s: seq<byte>, at: nat, n: nat): nat
    requires at + n <= |s|
  {
    FromLE(s[at..at + n])
  }

  /** Overlays an entry on the bytes starting at `at`; None when it does not fit there. */
  function DecodeAt(s: seq<byte>, at: nat): (r: Option<Entry>)
  {
    if at + ENTRY_HEADER > |s| then None else
      var len := Field(s, at + 28, 2);
      var uid, pid, tid := Field(s, at, 4), Field(s, at + 4, 4), Field(s, at + 8, 4);
      var sequence, sec, nsec := Field(s, at + 12, 8), Field(s, at + 20, 4), Field(s, at + 24, 4);
      if len == 0 || len > MAX_PAYLOAD || at + ENTRY_HEADER + len > |s| then None
      else if uid >= 0x1_0000_0000 || pid >= 0x1_0000_0000 || tid >= 0x1_0000_0000 then None
      else if sequence >= 0x1_0000_0000_0000_0000 || sec >= 0x1_0000_0000 || nsec >= 0x1_0000_0000 then None
      else Some(Entry(uid, pid, tid, sequence, LogTime(sec, nsec), s[at + ENTRY_HEADER..at + ENTRY_HEADER + len]))
  }

  /** The bytes of a run of entries written one after another. */
  function EncodeAll(es: seq<Entry>): seq<byte>
  {
    if es == [] then [] else Encode(es[0]) + EncodeAll(es[1..])
  }

  /** Byte length of a run of entries. */
  function Size(es: seq<Entry>): nat
  {
    if es == [] then 0 else TotalLen(es[0]) + Size(es[1..])
  }

  /** The entry iterator: decode at `at`, step by its total length, stop at `end`. */
  function DecodeRange(s: seq<byte>, at: nat, end: nat): (r: Option<seq<Entry>>)
    decreases end - at
  {
    if at >= end then (if at == end then Some([]) else None)
    else match DecodeAt(s, at)
      case None => None
      case Some(e) =>
        match DecodeRange(s, at + TotalLen(e), end)
        case None => None
        case Some(rest) => Some([e] + rest)
  }

  lemma EncodedFields(e: Entry)
    ensures var h := EncodeHeader(e);
      && h[0..4] == ToLE(4, e.uid) && h[4..8] == ToLE(4, e.pid) && h[8..12] == ToLE(4, e.tid)
      && h[12..20] == ToLE(8, e.sequence) && h[20..24] == ToLE(4, e.realtime.sec)
      && h[24..28] == ToLE(4, e.realtime.nsec) && h[28..30] == ToLE(2, |e.msg|)
  {
    var a, b, c, d := ToLE(4, e.uid), ToLE(4, e.pid), ToLE(4, e.tid), ToLE(8, e.sequence);
    var f, g, l := ToLE(4, e.realtime.sec), ToLE(4, e.realtime.nsec), ToLE(2, |e.msg|);
    var h := EncodeHeader(e);
    assert h == a + (b + c + d + f + g + l);
    assert h == a + b + (c + d + f + g + l);
    assert h == a + b + c + (d + f + g + l);
    assert h == a + b + c + d + (f + g + l);
    assert h == a + b + c + d + f + (g + l);
  }

  /** Decoding where an entry was written gives the entry back, whatever surrounds it. */
  lemma DecodeEncoded(pre: seq<byte>, e: Entry, post: seq<byte>)
    ensures DecodeAt(pre + Encode(e) + post, |pre|) == Some(e)
  {
    var s, at := pre + Encode(e) + post, |pre|;
    var h := EncodeHeader(e);
    assert s[at..at + 30] == h;
    assert s[at + 30..at + 30 + |e.msg|] == e.msg;
    EncodedFields(e);
    Widths();
    HeaderField(s, at, h, 0, 4);   RoundTripLE(4, e.uid);
    HeaderField(s, at, h, 4, 4);   RoundTripLE(4, e.pid);
    HeaderField(s, at, h, 8, 4);   RoundTripLE(4, e.tid);
    HeaderField(s, at, h, 12, 8);  RoundTripLE(8, e.sequence);
    HeaderField(s, at, h, 20, 4);  RoundTripLE(4, e.realtime.sec);
    HeaderField(s, at, h, 24, 4);  RoundTripLE(4, e.realtime.nsec);
    HeaderField(s, at, h, 28, 2);  RoundTripLE(2, |e.msg|);
  }

  lemma HeaderField(s: seq<byte>, at: nat, h: seq<byte>, k: nat, n: nat)
    requires at + 30 <= |s| && s[at..at + 30] == h && k + n <= 30
    ensures Field(s, at + k, n) == FromLE(h[k..k + n])
  {
    var t, u := s[at + k..at + k + n], h[k..k + n];
    forall i | 0 <= i < n
      ensures t[i] == u[i]
    {
      assert h[k + i] == s[at + (k + i)];
    }
    assert t == u;
  }

  lemma {:induction false} EncodeAllLen(es: seq<Entry>)
    ensures |EncodeAll(es)| == Size(es)
  {
    if es != [] { EncodeAllLen(es[1..]); }
  }

  lemma {:induction false} EncodeAllConcat(a: seq<Entry>, b: seq<Entry>)
    ensures EncodeAll(a + b) == EncodeAll(a) + EncodeAll(b)
  {
    if a == [] {
      assert a + b == b;
    } else {
      assert (a + b)[1..] == a[1..] + b;
      EncodeAllConcat(a[1..], b);
      assert Encode(a[0]) + (EncodeAll(a[1..]) + EncodeAll(b)) == EncodeAll(a) + EncodeAll(b);
    }
  }

  lemma {:induction false} SizeConcat(a: seq<Entry>, b: seq<Entry>)
    ensures Size(a + b) == Size(a) + Size(b)
  {
    if a == [] {
      assert a + b == b;
    } else {
      assert (a + b)[1..] == a[1..] + b;
      SizeConcat(a[1..], b);
    }
  }

  lemma EncodeAllSnoc(a: seq<Entry>, e: Entry)
    ensures EncodeAll(a + [e]) == EncodeAll(a) + Encode(e)
  {
    EncodeAllConcat(a, [e]);
    assert EncodeAll([e]) == Encode(e) + EncodeAll([e][1..]);
  }

  lemma SizeSnoc(a: seq<Entry>, e: Entry)
    ensures Size(a + [e]) == Size(a) + TotalLen(e)
  {
    SizeConcat(a, [e]);
    assert Size([e]) == TotalLen(e) + Size([e][1..]);
  }

  lemma DecodeRangeStep(s: seq<byte>, at: nat, end: nat, e: Entry, rest: seq<Entry>)
    requires at < end && DecodeAt(s, at) == Some(e) && DecodeRange(s, at + TotalLen(e), end) == Some(rest)
    ensures DecodeRange(s, at, end) == Some([e] + rest)
  {
  }

  lemma Assoc(a: seq<byte>, b: seq<byte>, c: seq<byte>)
    ensures a + (b + c) == a + b + c
  {
  }

  /** Iterating over a run of encoded entries yields exactly those entries, in order. */
  lemma {:induction false} DecodeRangeEncoded(pre: seq<byte>, es: seq<Entry>, post: seq<byte>, s: seq<byte>)
    requires s == pre + EncodeAll(es) + post
    ensures DecodeRange(s, |pre|, |pre| + Size(es)) == Some(es)
    decreases |es|
  {
    hide DecodeAt, Encode;
    if es != [] {
      var x, y := Encode(es[0]), EncodeAll(es[1..]);
      Assoc(pre, x, y);
      Assoc(pre + x, y, post);
      DecodeEncoded(pre, es[0], y + post);
      DecodeRangeEncoded(pre + x, es[1..], post, s);
      DecodeRangeStep(s, |pre|, |pre| + Size(es), es[0], es[1..]);
      assert es == [es[0]] + es[1..];
    }
  }

  // ---- Byte offsets as positions between entries ----

  /** `off` lies between two entries of the run, or at one of its ends. */
  predicate OnBoundary(es: seq<Entry>, off: nat)
  {
    off == 0 || (es != [] && off >= TotalLen(es[0]) && OnBoundary(es[1..], off - TotalLen(es[0])))
  }

  /** How many entries lie before the boundary `off`. */
  function IndexAt(es: seq<Entry>, off: nat): (k: nat)
    requires OnBoundary(es, off)
    ensures k <= |es|
  {
    if off == 0 then 0 else 1 + IndexAt(es[1..], off - TotalLen(es[0]))
  }

  lemma BoundaryStart(es: seq<Entry>)
    ensures OnBoundary(es, 0) && IndexAt(es, 0) == 0
  {
  }

  /** A boundary before the end has an entry at it, and stepping over that entry is the next boundary. */
  lemma {:induction false} BoundaryStep(es: seq<Entry>, off: nat)
    requires OnBoundary(es, off)
    ensures off == Size(es[..IndexAt(es, off)]) <= Size(es)
    ensures off < Size(es) <==> IndexAt(es, off) < |es|
    ensures off < Size(es) ==>
      var e := es[IndexAt(es, off)];
      OnBoundary(es, off + TotalLen(e)) && IndexAt(es, off + TotalLen(e)) == IndexAt(es, off) + 1
  {
    if off == 0 {
      assert es[..0] == [];
      if es != [] { assert OnBoundary(es[1..], 0); }
    } else {
      var n := TotalLen(es[0]);
      BoundaryStep(es[1..], off - n);
      var k := IndexAt(es, off);
      assert es[..k][1..] == es[1..][..k - 1];
    }
  }

  /** Appending entries moves no boundary. */
  lemma {:induction false} BoundaryAppend(es: seq<Entry>, more: seq<Entry>, off: nat)
    requires OnBoundary(es, off)
    ensures OnBoundary(es + more, off) && IndexAt(es + more, off) == IndexAt(es, off)
  {
    if off != 0 {
      assert (es + more)[1..] == es[1..] + more;
      BoundaryAppend(es[1..], more, off - TotalLen(es[0]));
    }
  }

  /** At a boundary, the bytes decode to the entry at that index. */
  lemma DecodeAtBoundary(es: seq<Entry>, off: nat, post: seq<byte>)
    requires OnBoundary(es, off) && off < Size(es)
    ensures IndexAt(es, off) < |es|
    ensures DecodeAt(EncodeAll(es) + post, off) == Some(es[IndexAt(es, off)])
  {
    BoundaryStep(es, off);
    var k := IndexAt(es, off);
    SplitEncoded(es, k);
    var a, x, b := EncodeAll(es[..k]), Encode(es[k]), EncodeAll(es[k + 1..]);
    Assoc(a, x, b);
    Assoc(a + x, b, post);
    EncodeAllLen(es[..k]);
    DecodeEncoded(a, es[k], b + post);
  }

  lemma SplitEncoded(es: seq<Entry>, k: nat)
    requires k < |es|
    ensures EncodeAll(es) == EncodeAll(es[..k]) + (Encode(es[k]) + EncodeAll(es[k + 1..]))
  {
    assert es == es[..k] + es[k..];
    EncodeAllConcat(es[..k], es[k..]);
    assert es[k..][1..] == es[k + 1..];
  }
}
