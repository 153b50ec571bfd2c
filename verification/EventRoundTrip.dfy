/**
 Parsing what was encoded: exactly when, and only when, every list is within the format's limits; with stop
 bytes behind lists; and what is left of a payload that was cut.
 */
module EventRoundTrip {
  import opened Bytes
  import opened EventFormat
  import opened EventLoose
  import opened EventParser

  /** These bytes lie at this place of the payload. */
  ghost predicate At(s: State, at: nat, b: seq<byte>)
  {
    Ok(s) && at + |b| <= s.len && s.storage[at..at + |b|] == b
  }

  /** The number of stop bytes from here on. */
  function Stops(b: seq<byte>, at: nat): (n: nat)
    ensures n > 0 <==> at < |b| && b[at] == TYPE_LIST_STOP
    decreases |b| - at
  {
    if at < |b| && b[at] == TYPE_LIST_STOP then 1 + Stops(b, at + 1) else 0
  }

  function Min(a: nat, b: nat): nat { if a < b then a else b }

  lemma {:induction false} StopsAfter(b: seq<byte>, at: nat, k: nat)
    requires k <= Stops(b, at)
    ensures Stops(b, at + k) == Stops(b, at) - k
    decreases k
  {
    if k > 0 { StopsAfter(b, at + 1, k - 1); }
  }

  /** Inside a list, with at least one more element to come. */
  predicate Inside(s: State)
  {
    |s.count| == MAX_NEST + 1 && 1 <= s.depth <= MAX_NEST && 1 <= s.count[s.depth] <= MAX_ELEMENTS && !s.stop
  }

  /** From s, up to this place and one element of the current list further on. */
  ghost predicate OneFurther(s: State, pos: nat, t: State, ragged: bool)
    requires Inside(s)
  {
    && Ok(t) && t.storage == s.storage && t.len == s.len && t.pos == pos && t.depth == s.depth
    && t.count[s.depth] == s.count[s.depth] - 1 && t.stop == (t.count[s.depth] == 0 && !ragged)
    && forall i :: 0 <= i < s.depth ==> t.count[i] == s.count[i]
  }

  /** From s, up to this place, with `extra` elements of the current list left. */
  ghost predicate AllFurther(s: State, pos: nat, t: State, extra: nat, ragged: bool)
    requires 1 <= s.depth <= MAX_NEST
  {
    && Ok(s) && Ok(t) && t.storage == s.storage && t.len == s.len && t.pos == pos && t.depth == s.depth
    && t.count[s.depth] == extra && t.stop == (extra == 0 && !ragged)
    && forall i :: 0 <= i < s.depth ==> t.count[i] == s.count[i]
  }

  lemma Slice(b: seq<byte>, at: nat, x: seq<byte>, i: nat, j: nat)
    requires at + |x| <= |b| && b[at..at + |x|] == x && i <= j <= |x|
    ensures b[at + i..at + j] == x[i..j]
  {
    var y := b[at..at + |x|];
    forall k | 0 <= k < j - i ensures b[at + i..at + j][k] == x[i..j][k] {
      assert b[at + i + k] == y[i + k];
    }
  }

  lemma Split(s: State, at: nat, a: seq<byte>, b: seq<byte>)
    requires At(s, at, a + b)
    ensures At(s, at, a) && At(s, at + |a|, b)
  {
    Slice(s.storage, at, a + b, 0, |a|);
    Slice(s.storage, at, a + b, |a|, |a + b|);
    assert (a + b)[0..|a|] == a && (a + b)[|a|..|a + b|] == b && at + 0 == at && at + |a + b| == at + |a| + |b|;
  }

  /** An element begins here, so no stop byte does. */
  lemma NoStop(s: State, at: nat, b: seq<byte>)
    requires At(s, at, b) && b != [] && b[0] <= TYPE_FLOAT
    ensures s.storage[at] == b[0] && Stops(s.storage, at) == 0
  {
    Slice(s.storage, at, b, 0, 1);
    assert s.storage[at..at + 1][0] == b[0..1][0];
  }

  /** The type byte and the bytes after it, as the parser picks them up. */
  lemma FirstBytes(s: State, v: Value, n: nat)
    requires At(s, s.pos, Encode(v)) && n < |Encode(v)|
    ensures s.storage[s.pos] == Encode(v)[0] && s.storage[s.pos + 1..s.pos + 1 + n] == Encode(v)[1..1 + n]
  {
    hide Encode;
    var x := Encode(v);
    Slice(s.storage, s.pos, x, 0, 1);
    assert s.storage[s.pos..s.pos + 1][0] == x[0..1][0];
    Slice(s.storage, s.pos, x, 1, 1 + n);
  }

  /** Numbers and strings read back as they were written. */
  lemma ReadScalar(s: State, v: Value)
    requires !v.List? && At(s, s.pos, Encode(v)) && !s.stop && !Refused(s)
    ensures Stream(v) == [Peeked(s).kind] && Peeked(s).len == LenOf(Peeked(s).kind)
    ensures Peeked(s).complete == (s.depth == 0 && s.count[0] == 0)
    ensures After(s) == Used(s, |Encode(v)|)
  {
    hide Peeked, After, Used;
    match v
    case Int(i) => ReadWord(s, v, Bits32(i));
    case Float(bits) => ReadWord(s, v, bits);
    case Long(l) => ReadLong(s, l);
    case Str(t) => ReadText(s, t);
  }

  lemma ReadWord(s: State, v: Value, bits: uint32)
    requires (v.Int? && bits == Bits32(v.i)) || (v.Float? && bits == v.bits)
    requires At(s, s.pos, Encode(v)) && !s.stop && !Refused(s)
    ensures Peeked(s) == Element(if v.Int? then IntK(v.i) else FloatK(v.bits), 4, s.depth == 0 && s.count[0] == 0)
    ensures After(s) == Used(s, |Encode(v)|)
  {
    hide FromLE, ToLE, Used;
    Widths();
    FirstBytes(s, v, 4);
    assert Encode(v)[1..5] == ToLE(4, bits);
    RoundTripLE(4, bits);
    assert Word(Data(s)) == bits;
  }

  lemma ReadLong(s: State, l: int64)
    requires At(s, s.pos, Encode(Long(l))) && !s.stop && !Refused(s)
    ensures Peeked(s) == Element(LongK(l), 8, s.depth == 0 && s.count[0] == 0)
    ensures After(s) == Used(s, |Encode(Long(l))|)
  {
    hide FromLE, ToLE, Used;
    Widths();
    FirstBytes(s, Long(l), 8);
    assert Encode(Long(l))[1..9] == ToLE(8, Bits64(l));
    RoundTripLE(8, Bits64(l));
  }

  lemma ReadText(s: State, t: Text)
    requires At(s, s.pos, Encode(Str(t))) && !s.stop && !Refused(s)
    ensures Peeked(s) == Element(StringK(t), |t|, s.depth == 0 && s.count[0] == 0)
    ensures After(s) == Used(s, |Encode(Str(t))|)
  {
    hide FromLE, ToLE, Used;
    var x := Encode(Str(t));
    Widths();
    FirstBytes(s, Str(t), 4);
    assert x[1..5] == ToLE(4, |t|);
    RoundTripLE(4, |t|);
    Slice(s.storage, s.pos, x, 5, |x|);
    assert x[5..|x|] == t;
    assert Word(Data(s)) == |t|;
  }

  /** Opening a list. */
  lemma OpenList(s: State, at: nat, items: Looses, extra: nat, stop: bool)
    requires At(s, at, BytesOf(Branch(items, extra, stop))) && s.pos == at && !s.stop && !Refused(s)
    ensures Peeked(s) == Element(ListK, 0, s.depth >= MAX_NEST)
    ensures var t := After(s);
      && t == Entered(s) && Ok(t) && t.storage == s.storage && t.len == s.len && t.pos == at + 2 && t.depth == s.depth + 1
      && (s.depth < MAX_NEST ==> t.count[t.depth] == Widened((Count(items) + extra) % 256))
      && t.stop == ((Count(items) + extra) % 256 == 0) && At(t, at + 2, BytesAll(items))
    ensures stop ==> at + 2 + |BytesAll(items)| < s.len && s.storage[at + 2 + |BytesAll(items)|] == TYPE_LIST_STOP
  {
    hide BytesOf, BytesAll, Count, Widened;
    ListBytes(s, at, items, extra, stop);
    ReadStaysOk(s);
  }

  /** The bytes of a list, as the parser picks them up. */
  lemma ListBytes(s: State, at: nat, items: Looses, extra: nat, stop: bool)
    requires At(s, at, BytesOf(Branch(items, extra, stop)))
    ensures at + 2 <= s.len && s.storage[at] == TYPE_LIST && s.storage[at + 1] == (Count(items) + extra) % 256 && At(s, at + 2, BytesAll(items))
    ensures stop ==> at + 2 + |BytesAll(items)| < s.len && s.storage[at + 2 + |BytesAll(items)|] == TYPE_LIST_STOP
  {
    hide BytesOf, BytesAll, Count;
    var n, body := (Count(items) + extra) % 256, BytesAll(items);
    BranchBytes(items, extra, stop);
    Split(s, at, [TYPE_LIST, n], body + Stop(stop));
    Split(s, at + 2, body, Stop(stop));
    ByteAt(s, at, [TYPE_LIST, n], 0);
    ByteAt(s, at, [TYPE_LIST, n], 1);
    if stop { ByteAt(s, at + 2 + |body|, [TYPE_LIST_STOP], 0); }
  }

  lemma BranchBytes(items: Looses, extra: nat, stop: bool)
    ensures BytesOf(Branch(items, extra, stop)) == [TYPE_LIST, (Count(items) + extra) % 256] + (BytesAll(items) + Stop(stop))
  {
  }

  lemma ByteAt(s: State, at: nat, b: seq<byte>, i: nat)
    requires At(s, at, b) && i < |b|
    ensures at + i < s.len && s.storage[at + i] == b[i]
  {
    assert s.storage[at..at + |b|][i] == b[i];
  }

  /** A list that has come to its end is left, and a stop byte that follows is taken along. */
  lemma CloseList(t: State)
    requires Ok(t) && 1 <= t.depth <= MAX_NEST && t.count[t.depth] == 0 && t.stop
    ensures Peeked(t) == Element(StopK, 0, t.depth == 1)
    ensures After(t) == t.(pos := t.pos + (if t.storage[t.pos] == TYPE_LIST_STOP then 1 else 0), depth := t.depth - 1, stop := t.count[t.depth - 1] == 0)
  {
  }

  /** A stop byte where an element is expected ends the list. */
  lemma CutShort(t: State)
    requires Ok(t) && 1 <= t.depth <= MAX_NEST && t.count[t.depth] <= MAX_ELEMENTS && !t.stop && t.pos < t.len && t.storage[t.pos] == TYPE_LIST_STOP
    ensures Peeked(t) == Element(StopK, 0, false) && After(t) == t.(pos := t.pos + 1, depth := t.depth - 1)
  {
  }

  // ---- Within the limits ----

  /** Where reading these bytes ends: behind them, and behind as many stop bytes as it takes along. */
  function EndOf(s: State, at: nat, b: seq<byte>, slack: nat): nat { at + |b| + Min(slack, Stops(s.storage, at + |b|)) }

  lemma {:induction false} ReadValue(s: State, at: nat, w: Loose)
    requires At(s, at, BytesOf(w)) && s.pos == at && Inside(s) && Within(w, s.depth) && Closed(w)
    ensures var ks := Stream(Strip(w));
      Elements(s, |ks|) == Flagged(ks) && OneFurther(s, EndOf(s, at, BytesOf(w), Slack(w)), StateAfter(s, |ks|), Ragged(w))
    decreases w
  {
    hide Peeked, After, Flagged, At, BytesAll, Elements, StateAfter, Stream, Closed, ClosedAll, WithinAll, EndOf, OneFurther;
    AtOk(s, at, BytesOf(w));
    if w.Leaf? {
      ReadLeaf(s, at, w.v);
    } else {
      OpenList(s, at, w.items, w.extra, w.stop);
      Parts(w);
      ReadItems(After(s), at + 2, w.items, w.extra, 0, false);
      ListRead(s, at, w, After(s), StateAfter(After(s), |StreamAll(StripAll(w.items))|));
    }
  }

  lemma Parts(w: Loose)
    requires w.Branch? && Closed(w)
    ensures ClosedAll(w.items)
  {
  }

  lemma ReadLeaf(s: State, at: nat, v: Scalar)
    requires At(s, at, Encode(v)) && s.pos == at && Inside(s)
    ensures Elements(s, |Stream(v)|) == Flagged(Stream(v)) && OneFurther(s, EndOf(s, at, Encode(v), 0), StateAfter(s, |Stream(v)|), false)
  {
    hide Peeked, After, Flagged, Encode;
    ReadOne(s);
    ReadScalar(s, v);
  }

  lemma AtOk(s: State, at: nat, b: seq<byte>)
    requires At(s, at, b)
    ensures Ok(s) && at + |b| <= s.len
  {
  }

  /** The reads of a list are the opening one, those of its elements, and the closing one. */
  lemma JoinList(s: State, n: nat, t: State, u: State)
    requires Ok(s) && t == After(s) && Ok(t) && u == StateAfter(t, n)
    ensures Elements(s, n + 2) == [Peeked(s)] + Elements(t, n) + [Peeked(u)]
    ensures StateAfter(s, n + 2) == After(u)
  {
    hide Peeked, After, Ok;
    ReadOne(s);
    ReadOne(u);
    ElementsConcat(s, 1, n + 1);
    ElementsConcat(t, n, 1);
  }

  /** Where closing a list leaves off. */
  lemma ListFurther(s: State, at: nat, w: Loose, t: State, u: State)
    requires w.Branch? && At(s, at, BytesOf(w)) && s.pos == at && Inside(s) && Within(w, s.depth) && Closed(w)
    requires t == After(s) && Ok(t) && AllFurther(t, EndOf(t, at + 2, BytesAll(w.items), SlackEnd(w.items, 0)), u, w.extra, RaggedEnd(w.items, false))
    ensures Ok(s) && Peeked(s) == Element(ListK, 0, false) && Peeked(u) == Element(StopK, 0, false)
    ensures OneFurther(s, EndOf(s, at, BytesOf(w), Slack(w)), After(u), Ragged(w))
  {
    hide Peeked, After, BytesOf, BytesAll, RaggedEnd, SlackEnd, At, Count, WithinAll, ClosedAll, Entered, OneFurther, Widened, Stops, Min;
    AtOk(s, at, BytesOf(w));
    OpenList(s, at, w.items, w.extra, w.stop);
    BranchBytes(w.items, w.extra, w.stop);
    assert |BytesOf(w)| == 2 + |BytesAll(w.items)| + if w.stop then 1 else 0;
    Closing(u, at + 2 + |BytesAll(w.items)|, SlackEnd(w.items, 0), w.stop, Ragged(w));
    ReadStaysOk(u);
    Left(s, t, u, After(u), Ragged(w));
  }

  /** A list entered and left again is one element of the list around it. */
  lemma Left(s: State, t: State, u: State, v: State, ragged: bool)
    requires Ok(s) && Inside(s) && s.depth < MAX_NEST && s.pos + 2 <= s.len && t == Entered(s) && Ok(u) && u.depth == t.depth
    requires u.storage == s.storage && u.len == s.len && forall i :: 0 <= i < t.depth ==> u.count[i] == t.count[i]
    requires Ok(v) && v == u.(pos := v.pos, depth := u.depth - 1, stop := !ragged && u.count[u.depth - 1] == 0)
    ensures OneFurther(s, v.pos, v, ragged)
  {
  }

  /** The end of a list: its elements reach to e, where their reads took along up to k stop bytes. */
  lemma Closing(u: State, e: nat, k: nat, stop: bool, ragged: bool)
    requires Ok(u) && 2 <= u.depth <= MAX_NEST && u.count[u.depth] <= MAX_ELEMENTS && u.pos == e + Min(k, Stops(u.storage, e))
    requires u.stop == !ragged && (!ragged ==> u.count[u.depth] == 0) && (ragged ==> stop && k == 0)
    requires stop ==> e < u.len && u.storage[e] == TYPE_LIST_STOP
    ensures Peeked(u) == Element(StopK, 0, false)
    ensures var f := e + if stop then 1 else 0;
      After(u) == u.(pos := f + Min(if ragged then 0 else k + if stop then 0 else 1, Stops(u.storage, f)), depth := u.depth - 1,
                     stop := !ragged && u.count[u.depth - 1] == 0)
  {
    hide Peeked, After;
    StopsAfter(u.storage, e, Min(k, Stops(u.storage, e)));
    if ragged {
      CutShort(u);
    } else {
      CloseList(u);
      if stop { StopsAfter(u.storage, e, 1); }
    }
  }

  /** A list whose elements were read back, opened at s and with its end reached at u. */
  lemma ListRead(s: State, at: nat, w: Loose, t: State, u: State)
    requires w.Branch? && At(s, at, BytesOf(w)) && s.pos == at && Inside(s) && Within(w, s.depth) && Closed(w)
    requires var ks := StreamAll(StripAll(w.items));
      && t == After(s) && Ok(t) && u == StateAfter(t, |ks|) && Elements(t, |ks|) == Flagged(ks)
      && AllFurther(t, EndOf(t, at + 2, BytesAll(w.items), SlackEnd(w.items, 0)), u, w.extra, RaggedEnd(w.items, false))
    ensures var ks := Stream(Strip(w));
      Elements(s, |ks|) == Flagged(ks) && OneFurther(s, EndOf(s, at, BytesOf(w), Slack(w)), StateAfter(s, |ks|), Ragged(w))
  {
    hide Peeked, After, Elements, StateAfter, StreamAll, StripAll, BytesAll, Flagged, OneFurther, AllFurther, At, EndOf;
    var ks := StreamAll(StripAll(w.items));
    ListFurther(s, at, w, t, u);
    JoinList(s, |ks|, t, u);
    assert Stream(Strip(w)) == [ListK] + ks + [StopK];
    AroundStream(ks);
  }

  /** The elements of a list; `slack` and `ragged` are what the element before these left behind. */
  lemma {:induction false} ReadItems(s: State, at: nat, items: Looses, extra: nat, slack: nat, ragged: bool)
    requires At(s, at, BytesAll(items)) && s.pos == at + Min(slack, Stops(s.storage, at)) && 1 <= s.depth <= MAX_NEST
    requires s.count[s.depth] == Count(items) + extra <= MAX_ELEMENTS && s.stop == (s.count[s.depth] == 0 && !ragged)
    requires items.More? ==> s.count[s.depth] > 0
    requires WithinAll(items, s.depth) && ClosedAll(items)
    ensures var ks := StreamAll(StripAll(items));
      && Elements(s, |ks|) == Flagged(ks)
      && AllFurther(s, EndOf(s, at, BytesAll(items), SlackEnd(items, slack)), StateAfter(s, |ks|), extra, RaggedEnd(items, ragged))
    decreases items
  {
    hide Peeked, After, Within, Flagged, BytesOf, Stream, Strip, Slack, Ragged, Closed;
    if items.More? {
      hide Elements, StateAfter;
      var a, b := BytesOf(items.head), BytesAll(items.tail);
      Split(s, at, a, b);
      NoStop(s, at, a);
      ReadValue(s, at, items.head);
      var ks := Stream(Strip(items.head));
      var t := StateAfter(s, |ks|);
      ReadItems(t, at + |a|, items.tail, extra, Slack(items.head), Ragged(items.head));
      ElementsConcat(s, |ks|, |StreamAll(StripAll(items.tail))|);
      FlaggedConcat(ks, StreamAll(StripAll(items.tail)));
    }
  }

  // ---- Beyond the limits ----

  lemma Unlike<T>(a: seq<T>, b: seq<T>, c: seq<T>, d: seq<T>)
    requires |a| == |c| && |b| == |d| && (a != c || b != d)
    ensures a + b != c + d
  {
    assert (a + b)[..|a|] == a && (c + d)[..|c|] == c;
    assert (a + b)[|a|..] == b && (c + d)[|c|..] == d;
  }

  /** The first element read already differs. */
  lemma DiffersAtOnce(s: State, ks: seq<Kind>)
    requires Ok(s) && ks != [] && Peeked(s) != Element(ks[0], LenOf(ks[0]), false)
    ensures Elements(s, |ks|) != Flagged(ks)
  {
    hide Peeked, After;
    assert Elements(s, |ks|)[0] == Peeked(s);
  }

  lemma {:induction false} MisreadValue(s: State, at: nat, w: Loose)
    requires At(s, at, BytesOf(w)) && s.pos == at && Inside(s) && Exact(w) && !Within(w, s.depth)
    ensures var ks := Stream(Strip(w)); Elements(s, |ks|) != Flagged(ks)
    decreases w
  {
    hide Peeked, After, Flagged, At, Elements, StateAfter, BytesAll, Widened, WithinAll;
    AtOk(s, at, BytesOf(w));
    OpenList(s, at, w.items, 0, w.stop);
    if s.depth == MAX_NEST {
      DiffersAtOnce(s, Stream(Strip(w)));
    } else {
      var t, ks := After(s), StreamAll(StripAll(w.items));
      CountByte(w.items);
      NoneWithin(s.depth + 1);
      MisreadItems(t, at + 2, w.items, 0);
      ListMisread(s, ks, t, StateAfter(t, |ks|));
    }
  }

  lemma NoneWithin(d: nat)
    ensures WithinAll(None, d)
  {
  }

  lemma ListMisread(s: State, ks: seq<Kind>, t: State, u: State)
    requires Ok(s) && t == After(s) && Ok(t) && u == StateAfter(t, |ks|) && Elements(t, |ks|) != Flagged(ks)
    ensures Elements(s, |ks| + 2) != Flagged([ListK] + ks + [StopK])
  {
    hide Peeked, After, Ok, Elements, StateAfter, Flagged;
    JoinList(s, |ks|, t, u);
    FlaggedConcat([ListK] + ks, [StopK]);
    FlaggedConcat([ListK], ks);
    Unlike([Peeked(s)], Elements(t, |ks|), Flagged([ListK]), Flagged(ks));
    Unlike([Peeked(s)] + Elements(t, |ks|), [Peeked(u)], Flagged([ListK]) + Flagged(ks), Flagged([StopK]));
  }

  /** A list too long for its count byte is announced as shorter, or as impossibly long. */
  lemma CountByte(items: Looses)
    ensures var c := Widened(Count(items) % 256);
      && ((c <= MAX_ELEMENTS && c <= Count(items)) || c >= MAX_EVENT_PAYLOAD / 2)
      && (Count(items) <= MAX_ELEMENTS ==> c == Count(items))
      && (Count(items) > MAX_ELEMENTS ==> c >= MAX_EVENT_PAYLOAD / 2 || c != Count(items))
      && (c == 0 <==> Count(items) % 256 == 0)
  {
  }

  lemma MisreadFirst(s: State, items: Looses)
    requires Ok(s) && 1 <= s.depth <= MAX_NEST && items.More? && s.stop == (s.count[s.depth] == 0)
    requires s.count[s.depth] >= MAX_EVENT_PAYLOAD / 2 || s.count[s.depth] == 0
    ensures var ks := StreamAll(StripAll(items)); Elements(s, |ks|) != Flagged(ks)
  {
    DiffersAtOnce(s, StreamAll(StripAll(items)));
  }

  lemma {:induction false} MisreadItems(s: State, at: nat, items: Looses, slack: nat)
    requires At(s, at, BytesAll(items)) && s.pos == at + Min(slack, Stops(s.storage, at)) && 1 <= s.depth <= MAX_NEST && ExactAll(items)
    requires var c := s.count[s.depth]; (c <= MAX_ELEMENTS && c <= Count(items)) || c >= MAX_EVENT_PAYLOAD / 2
    requires s.stop == (s.count[s.depth] == 0)
    requires s.count[s.depth] >= MAX_EVENT_PAYLOAD / 2 || s.count[s.depth] != Count(items) || !WithinAll(items, s.depth)
    requires items.More?
    ensures var ks := StreamAll(StripAll(items)); Elements(s, |ks|) != Flagged(ks)
    decreases items
  {
    hide Peeked, After, Flagged, Elements, StateAfter, Within, BytesOf, Stream, Strip, Slack, Exact;
    var c, first, rest := s.count[s.depth], Stream(Strip(items.head)), StreamAll(StripAll(items.tail));
    if c >= MAX_EVENT_PAYLOAD / 2 || c == 0 {
      MisreadFirst(s, items);
      return;
    }
    var a, b, n := BytesOf(items.head), BytesAll(items.tail), |first|;
    Split(s, at, a, b);
    NoStop(s, at, a);
    var t := StateAfter(s, n);
    ElementsConcat(s, n, |rest|);
    FlaggedConcat(first, rest);
    if Within(items.head, s.depth) {
      ExactCloses(items.head);
      ReadValue(s, at, items.head);
      MisreadItems(t, at + |a|, items.tail, Slack(items.head));
    } else {
      MisreadValue(s, at, items.head);
    }
    Unlike(Elements(s, n), Elements(t, |rest|), Flagged(first), Flagged(rest));
  }

  // ---- Whole payloads ----

  lemma StartedAt(b: seq<byte>)
    requires |b| <= MAX_EVENT_PAYLOAD
    ensures var s := Started(b);
      At(s, 0, b) && s.pos == s.depth == s.count[0] == 0 && !s.stop && !Refused(s) && s.len == |b| && s.storage[|b|] == 0
  {
    var s := Started(b);
    assert s.storage[0..0 + |b|] == b;
  }

  /** Nothing follows a payload. */
  lemma NoStopAfter(s: State)
    requires Ok(s)
    ensures s.storage[s.len] == 0 && Stops(s.storage, s.len) == 0
  {
  }

  /**
   Reading back a payload of one value, with stop bytes behind any of its lists, yields exactly its stream,
   with `complete` set on the last element and on no earlier one, if and only if no list in it is longer than 127
   or nested too deep.
   */
  lemma StopsReadBack(w: Loose)
    requires |BytesOf(w)| <= MAX_EVENT_PAYLOAD && Exact(w)
    ensures var ks := Stream(Strip(w)); Elements(Started(BytesOf(w)), |ks|) == Finished(ks) <==> Good(Strip(w), 0)
  {
    hide Peeked, After, Flagged, Started, Encode, At, Elements, Finished, Good, Stream;
    var s := Started(BytesOf(w));
    StartedAt(BytesOf(w));
    AtOk(s, 0, BytesOf(w));
    ExactWithin(w, 0);
    if w.Leaf? {
      ScalarPayload(s, w.v);
    } else {
      ListPayload(s, w);
    }
  }

  /** What liblog writes: no stop bytes. */
  lemma RoundTrip(v: Value)
    requires |Encode(v)| <= MAX_EVENT_PAYLOAD
    ensures Elements(Started(Encode(v)), |Stream(v)|) == Finished(Stream(v)) <==> Good(v, 0)
  {
    BareIs(v);
    hide Elements, Started, Finished, Good, Stream, Encode;
    StopsReadBack(Bare(v));
  }

  lemma ScalarPayload(s: State, v: Scalar)
    requires At(s, s.pos, Encode(v)) && s.depth == 0 && !s.stop && !Refused(s)
    ensures Elements(s, |Stream(v)|) == Finished(Stream(v)) && Good(v, 0)
  {
    hide Peeked, After, At, Encode;
    AtOk(s, s.pos, Encode(v));
    ReadOne(s);
    ReadScalar(s, v);
  }

  /** A whole list up to where its elements end. */
  lemma OpenPayload(s: State, w: Loose) returns (t: State, u: State)
    requires w.Branch? && At(s, 0, BytesOf(w)) && s.pos == s.depth == 0 && !s.stop && !Refused(s) && s.len == |BytesOf(w)|
    ensures var ks := StreamAll(StripAll(w.items));
      && Ok(s) && t == After(s) && Ok(t) && u == StateAfter(t, |ks|) && t.storage == s.storage && t.len == s.len && t.pos == 2 && t.depth == 1
      && t.count[1] == Widened((Count(w.items) + w.extra) % 256) && t.stop == ((Count(w.items) + w.extra) % 256 == 0) && t.count[0] == 0
      && At(t, 2, BytesAll(w.items)) && Peeked(s) == Element(ListK, 0, false)
      && Elements(s, |ks| + 2) == [Peeked(s)] + Elements(t, |ks|) + [Peeked(u)] && StateAfter(s, |ks| + 2) == After(u)
    ensures w.stop ==> s.storage[2 + |BytesAll(w.items)|] == TYPE_LIST_STOP && 2 + |BytesAll(w.items)| < s.len
  {
    hide BytesOf, At, Elements, StateAfter, Widened;
    AtOk(s, 0, BytesOf(w));
    OpenList(s, 0, w.items, w.extra, w.stop);
    t := After(s);
    u := StateAfter(t, |StreamAll(StripAll(w.items))|);
    JoinList(s, |StreamAll(StripAll(w.items))|, t, u);
  }

  lemma ListPayload(s: State, w: Loose)
    requires w.Branch? && Exact(w) && At(s, 0, BytesOf(w)) && s.pos == s.depth == 0 && !s.stop && !Refused(s) && s.len == |BytesOf(w)|
    ensures var ks := Stream(Strip(w)); Ok(s) && (Elements(s, |ks|) == Finished(ks) <==> Within(w, 0))
  {
    hide Peeked, After, Flagged, BytesOf, At, Widened, Elements, Finished, StateAfter;
    AtOk(s, 0, BytesOf(w));
    var ks := StreamAll(StripAll(w.items));
    var t, u := OpenPayload(s, w);
    CountByte(w.items);
    FinishedList(ks);
    ExactCloses(w);
    if Within(w, 0) {
      ReadItems(t, 2, w.items, 0, 0, false);
      CloseList(u);
    } else {
      MisreadItems(t, 2, w.items, 0);
      Unlike([Peeked(s)], Elements(t, |ks|), [Element(ListK, 0, false)], Flagged(ks));
      Unlike([Peeked(s)] + Elements(t, |ks|), [Peeked(u)], [Element(ListK, 0, false)] + Flagged(ks), [Element(StopK, 0, true)]);
    }
  }

  /**
   A payload whose list only a stop byte ends: it reads back as its stream, but the last stop does not say that
   reading is complete; the next read does.
   */
  lemma ShortReadBack(w: Loose)
    requires |BytesOf(w)| <= MAX_EVENT_PAYLOAD && Within(w, 0) && Closed(w) && Ragged(w)
    ensures var ks := Stream(Strip(w)); Elements(Started(BytesOf(w)), |ks| + 1) == Flagged(ks) + [Element(UnknownK, 0, true)]
  {
    hide Peeked, After, Flagged, BytesOf, At, Elements, StateAfter, Started, Closed, ClosedAll, WithinAll, Ragged, RaggedEnd, SlackEnd, BytesAll, EndOf, Refused, Widened, Count;
    CountWithin(w);
    var s := Started(BytesOf(w));
    StartedAt(BytesOf(w));
    var ks := StreamAll(StripAll(w.items));
    var t, u := OpenPayload(s, w);
    AtOk(t, 2, BytesAll(w.items));
    EndOfShort(t, w);
    ReadItems(t, 2, w.items, w.extra, 0, false);
    EndShort(s, w, u);
    ElementsConcat(s, |ks| + 2, 1);
    ReadOne(After(u));
    AroundStream(ks);
  }

  lemma AroundStream(ks: seq<Kind>)
    ensures Flagged([ListK] + ks + [StopK]) == [Element(ListK, 0, false)] + Flagged(ks) + [Element(StopK, 0, false)]
  {
    hide Flagged;
    FlaggedConcat([ListK] + ks, [StopK]);
    FlaggedConcat([ListK], ks);
    assert Flagged([ListK]) == [Element(ListK, 0, false)] && Flagged([StopK]) == [Element(StopK, 0, false)];
  }

  lemma CountWithin(w: Loose)
    requires Within(w, 0) && Ragged(w)
    ensures w.Branch? && WithinAll(w.items, 1) && Count(w.items) + w.extra <= MAX_ELEMENTS
    ensures var n := Count(w.items) + w.extra; Widened(n % 256) == n && (w.extra == 0 && !RaggedEnd(w.items, false) ==> false)
  {
  }

  lemma EndOfShort(t: State, w: Loose)
    requires Closed(w) && Ragged(w) && 2 + |BytesAll(w.items)| <= |t.storage|
    ensures EndOf(t, 2, BytesAll(w.items), SlackEnd(w.items, 0)) == 2 + |BytesAll(w.items)| && w.stop && ClosedAll(w.items)
  {
  }

  /** The stop byte that ends a payload. */
  lemma EndShort(s: State, w: Loose, u: State)
    requires w.Branch? && Ragged(w) && Closed(w) && Within(w, 0) && s.len == |BytesOf(w)|
    requires Ok(u) && u.storage == s.storage && u.len == s.len && u.depth == 1 && u.count[1] == w.extra && u.count[0] == 0
    requires u.pos == 2 + |BytesAll(w.items)| && !u.stop && s.storage[u.pos] == TYPE_LIST_STOP && u.pos < s.len
    ensures Peeked(u) == Element(StopK, 0, false) && Ok(After(u)) && Peeked(After(u)) == Element(UnknownK, 0, true)
  {
    CutShort(u);
    assert u.pos + 1 == s.len;
  }

  lemma FinishedList(ks: seq<Kind>)
    ensures Finished([ListK] + ks + [StopK]) == [Element(ListK, 0, false)] + Flagged(ks) + [Element(StopK, 0, true)]
  {
    var all := [ListK] + ks + [StopK];
    assert all[..|all| - 1] == [ListK] + ks;
    FlaggedConcat([ListK], ks);
  }

  // ---- A payload cut anywhere ----

  /** Every string's length fits the 16 bits a reader keeps of it. */
  predicate TextsFit(v: Value)
  {
    match v
    case Str(t) => |t| < 0xFFFF
    case List(items) => AllTextsFit(items)
    case _ => true
  }

  predicate AllTextsFit(vs: Values) { vs.Cons? ==> TextsFit(vs.head) && AllTextsFit(vs.tail) }

  /** What the first n bytes of a value inside a list yield when its end is missing: of a string what is left of it, of anything else a failure. */
  function Torn(v: Value, n: nat): Element
  {
    if n == 0 then Element(UnknownK, 0, true)
    else
      match v
      case Int(_) => Element(UnknownK, 4, false)
      case Float(_) => Element(UnknownK, 4, false)
      case Long(_) => Element(UnknownK, 8, false)
      case Str(t) => if 5 < n < 5 + |t| then Element(StringK(t[..n - 5]), n - 5, false) else Element(UnknownK, 0, true)
      case List(_) => Element(UnknownK, 0, true)
  }

  /** Every element that is whole, then what is left of the one that is not. */
  function Salvaged(v: Value, n: nat): (es: seq<Element>)
    requires n < |Encode(v)|
    ensures es != []
  {
    if v.List? && n >= 2 then [Element(ListK, 0, false)] + SalvagedAll(v.items, n - 2) else [Torn(v, n)]
  }

  function SalvagedAll(vs: Values, n: nat): (es: seq<Element>)
    requires n < |EncodeAll(vs)|
    ensures es != []
  {
    if n < |Encode(vs.head)| then Salvaged(vs.head, n)
    else Flagged(Stream(vs.head)) + SalvagedAll(vs.tail, n - |Encode(vs.head)|)
  }

  /** The payload ends in the middle of these bytes. */
  ghost predicate CutAt(s: State, at: nat, b: seq<byte>)
  {
    Ok(s) && s.pos == at <= s.len < at + |b| && s.storage[at..s.len] == b[..s.len - at]
  }

  lemma CutByte(s: State, at: nat, b: seq<byte>, i: nat)
    requires CutAt(s, at, b) && at + i < s.len
    ensures s.storage[at + i] == b[i]
  {
    assert s.storage[at..s.len][i] == b[..s.len - at][i];
  }

  lemma CutBytes(s: State, at: nat, b: seq<byte>, i: nat, j: nat)
    requires CutAt(s, at, b) && i <= j && at + j <= s.len
    ensures s.storage[at + i..at + j] == b[i..j]
  {
    Slice(s.storage, at, b[..s.len - at], i, j);
  }

  lemma ReadTorn(s: State, at: nat, v: Value)
    requires CutAt(s, at, Encode(v)) && Inside(s) && TextsFit(v) && (v.List? ==> s.len - at < 2)
    ensures Peeked(s) == Torn(v, s.len - at)
  {
    hide ToLE, FromLE;
    Widths();
    var n, b := s.len - at, Encode(v);
    if n > 0 {
      CutByte(s, at, b, 0);
      if v.Str? && n >= 5 {
        CutBytes(s, at, b, 1, 5);
        assert b[1..5] == ToLE(4, |v.s|);
        RoundTripLE(4, |v.s|);
        CutBytes(s, at, b, 5, n);
        assert b[5..n] == v.s[..n - 5];
      }
    }
  }

  lemma {:induction false} ReadCut(s: State, at: nat, v: Value)
    requires CutAt(s, at, Encode(v)) && Inside(s) && TextsFit(v) && Good(v, s.depth)
    ensures Elements(s, |Salvaged(v, s.len - at)|) == Salvaged(v, s.len - at)
    decreases v
  {
    hide Peeked, After;
    if v.List? && s.len - at >= 2 {
      OpenCut(s, at, v.items);
      ReadOne(s);
      ReadCutItems(After(s), at + 2, v.items);
      ElementsConcat(s, 1, |SalvagedAll(v.items, s.len - at - 2)|);
    } else {
      ReadOne(s);
      ReadTorn(s, at, v);
    }
  }

  lemma OpenCut(s: State, at: nat, items: Values)
    requires CutAt(s, at, Encode(List(items))) && s.len - at >= 2 && !s.stop && !Refused(s) && s.depth < MAX_NEST && 0 < Length(items) <= MAX_ELEMENTS
    ensures Peeked(s) == Element(ListK, 0, false)
    ensures var t := After(s);
      CutAt(t, at + 2, EncodeAll(items)) && t.len == s.len && t.depth == s.depth + 1 && t.count[t.depth] == Length(items) && !t.stop
  {
    hide Encode, EncodeAll, CutAt, FromLE, Length;
    CutHeader(s, at, items);
    ReadStaysOk(s);
    CutBody(s, at, items, After(s));
  }

  lemma CutHeader(s: State, at: nat, items: Values)
    requires CutAt(s, at, Encode(List(items))) && s.len - at >= 2
    ensures Ok(s) && s.pos == at && s.storage[at] == TYPE_LIST && s.storage[at + 1] == Length(items) % 256
  {
    var b := Encode(List(items));
    CutByte(s, at, b, 0);
    CutByte(s, at, b, 1);
  }

  lemma CutBody(s: State, at: nat, items: Values, t: State)
    requires CutAt(s, at, Encode(List(items))) && s.len - at >= 2 && Ok(t) && t.storage == s.storage && t.len == s.len && t.pos == at + 2
    ensures CutAt(t, at + 2, EncodeAll(items))
  {
    var head, body := [TYPE_LIST, Length(items) % 256], EncodeAll(items);
    assert Encode(List(items)) == head + body;
    hide Encode, EncodeAll, Length;
    CutBytes(s, at, head + body, 2, s.len - at);
    assert (head + body)[2..s.len - at] == body[..s.len - at - 2];
  }

  lemma {:induction false} ReadCutItems(s: State, at: nat, items: Values)
    requires CutAt(s, at, EncodeAll(items)) && 1 <= s.depth <= MAX_NEST && AllTextsFit(items) && GoodAll(items, s.depth)
    requires s.count[s.depth] == Length(items) <= MAX_ELEMENTS && !s.stop
    ensures Elements(s, |SalvagedAll(items, s.len - at)|) == SalvagedAll(items, s.len - at)
    decreases items
  {
    hide Peeked, After, Encode, Stream, Flagged, Elements, StateAfter, Good, TextsFit;
    var a, b := Encode(items.head), EncodeAll(items.tail);
    if s.len - at < |a| {
      CutHead(s, at, a, b);
      ReadCut(s, at, items.head);
    } else {
      HeadWhole(s, at, a, b);
      var t := ReadBare(s, at, items.head);
      assert items.tail.Cons?;
      ReadCutItems(t, at + |a|, items.tail);
      ElementsConcat(s, |Stream(items.head)|, |SalvagedAll(items.tail, s.len - at - |a|)|);
    }
  }

  lemma CutHead(s: State, at: nat, a: seq<byte>, b: seq<byte>)
    requires CutAt(s, at, a + b) && s.len - at < |a|
    ensures CutAt(s, at, a)
  {
    assert (a + b)[..s.len - at] == a[..s.len - at];
  }

  lemma HeadWhole(s: State, at: nat, a: seq<byte>, b: seq<byte>)
    requires CutAt(s, at, a + b) && |a| <= s.len - at && |a| >= 2
    ensures At(s, at, a)
    ensures forall t: State :: Ok(t) && t.storage == s.storage && t.len == s.len && t.pos == at + |a| ==> CutAt(t, at + |a|, b)
    ensures b != [] && b[0] <= TYPE_FLOAT ==> Stops(s.storage, at + |a|) == 0
  {
    CutBytes(s, at, a + b, 0, |a|);
    assert (a + b)[0..|a|] == a && at + 0 == at;
    CutBytes(s, at, a + b, |a|, s.len - at);
    assert (a + b)[|a|..s.len - at] == b[..s.len - at - |a|];
    if at + |a| < s.len && b != [] { CutByte(s, at, a + b, |a|); }
    NoStopAfter(s);
  }

  /** A value without stop bytes, followed by none. */
  lemma ReadBare(s: State, at: nat, v: Value) returns (t: State)
    requires At(s, at, Encode(v)) && s.pos == at && Inside(s) && Good(v, s.depth) && Stops(s.storage, at + |Encode(v)|) == 0
    ensures t == StateAfter(s, |Stream(v)|) && Elements(s, |Stream(v)|) == Flagged(Stream(v)) && OneFurther(s, at + |Encode(v)|, t, false)
  {
    hide Elements, StateAfter, Stream, Flagged, Encode, At;
    var w := Bare(v);
    BareIs(v);
    ExactCloses(w);
    ExactWithin(w, s.depth);
    AtOk(s, at, Encode(v));
    ReadValue(s, at, w);
    t := StateAfter(s, |Stream(v)|);
  }

  lemma SomeItems(items: Values)
    requires |Encode(List(items))| > 2
    ensures items.Cons?
  {
  }

  /** A list payload cut anywhere behind its header: every element that is whole, and what is left of the next. */
  lemma CutReadsBack(items: Values, n: nat)
    requires 2 <= n < |Encode(List(items))| && n <= MAX_EVENT_PAYLOAD && Good(List(items), 0) && AllTextsFit(items)
    ensures var s := Started(Encode(List(items))[..n]);
      Elements(s, |Salvaged(List(items), n)|) == Salvaged(List(items), n)
  {
    hide Peeked, After, Elements, Started, EncodeAll, SalvagedAll, Refused;
    var b := Encode(List(items))[..n];
    var s := Started(b);
    StartedAt(b);
    AtOk(s, 0, b);
    assert CutAt(s, 0, Encode(List(items)));
    SomeItems(items);
    OpenCut(s, 0, items);
    ReadStaysOk(s);
    ReadOne(s);
    ReadCutItems(After(s), 2, items);
    ElementsConcat(s, 1, |SalvagedAll(items, n - 2)|);
  }
}
