/**
 Event payloads as a writer other than liblog may send them: a list may be closed by a stop byte behind its
 last element, and one that is may announce more elements than it has.
 */
module EventLoose {
  import opened Bytes
  import opened EventFormat

  type Scalar = v: Value | !v.List? witness Int(0)

  /** A list with `extra` elements announced but missing, and with or without a stop byte at its end. */
  datatype Loose = Leaf(v: Scalar) | Branch(items: Looses, extra: nat, stop: bool)
  datatype Looses = None | More(head: Loose, tail: Looses)

  /** The value behind the bytes. */
  function Strip(w: Loose): Value
  {
    match w
    case Leaf(v) => v
    case Branch(items, _, _) => List(StripAll(items))
  }

  function StripAll(ws: Looses): Values
  {
    if ws.None? then Nil else Cons(Strip(ws.head), StripAll(ws.tail))
  }

  function Count(ws: Looses): (n: nat)
    ensures n == Length(StripAll(ws))
  {
    if ws.None? then 0 else 1 + Count(ws.tail)
  }

  function Stop(stop: bool): seq<byte> { if stop then [TYPE_LIST_STOP] else [] }

  function BytesOf(w: Loose): (b: seq<byte>)
    ensures |b| >= 2 && b[0] <= TYPE_FLOAT
  {
    match w
    case Leaf(v) => Encode(v)
    case Branch(items, extra, stop) => [TYPE_LIST, (Count(items) + extra) % 256] + BytesAll(items) + Stop(stop)
  }

  function BytesAll(ws: Looses): seq<byte>
  {
    if ws.None? then [] else BytesOf(ws.head) + BytesAll(ws.tail)
  }

  /** Only a stop byte ends it: it announces more than it has, or its last element ends that way. */
  predicate Ragged(w: Loose) { w.Branch? && (w.extra > 0 || RaggedEnd(w.items, false)) }

  predicate RaggedEnd(ws: Looses, before: bool)
  {
    if ws.None? then before else RaggedEnd(ws.tail, Ragged(ws.head))
  }

  /** How many stop bytes behind it the reads of its end would take along. */
  function Slack(w: Loose): nat
  {
    if w.Leaf? || Ragged(w) then 0 else SlackEnd(w.items, 0) + if w.stop then 0 else 1
  }

  function SlackEnd(ws: Looses, before: nat): nat
  {
    if ws.None? then before else SlackEnd(ws.tail, Slack(ws.head))
  }

  /** Every list that only a stop byte ends has one, and nothing in it takes that byte along. */
  predicate Closed(w: Loose)
  {
    w.Branch? ==> ClosedAll(w.items) && (Ragged(w) ==> w.stop && SlackEnd(w.items, 0) == 0)
  }

  predicate ClosedAll(ws: Looses) { ws.More? ==> Closed(ws.head) && ClosedAll(ws.tail) }

  /** Nothing is announced that is missing. */
  predicate Exact(w: Loose) { w.Branch? ==> w.extra == 0 && ExactAll(w.items) }
  predicate ExactAll(ws: Looses) { ws.More? ==> Exact(ws.head) && ExactAll(ws.tail) }

  /** Read from depth d on: no list announces too many elements, none is nested too deep. */
  predicate Within(w: Loose, d: nat) { w.Branch? ==> d < MAX_NEST && Count(w.items) + w.extra <= MAX_ELEMENTS && WithinAll(w.items, d + 1) }
  predicate WithinAll(ws: Looses, d: nat) { ws.More? ==> Within(ws.head, d) && WithinAll(ws.tail, d) }

  lemma {:induction false} ExactCloses(w: Loose)
    requires Exact(w)
    ensures Closed(w) && !Ragged(w)
    decreases w
  {
    if w.Branch? { ExactAllClose(w.items, false); }
  }

  lemma {:induction false} ExactAllClose(ws: Looses, before: bool)
    requires ExactAll(ws)
    ensures ClosedAll(ws) && (!before ==> !RaggedEnd(ws, before))
    decreases ws
  {
    if ws.More? {
      ExactCloses(ws.head);
      ExactAllClose(ws.tail, Ragged(ws.head));
    }
  }

  lemma {:induction false} ExactWithin(w: Loose, d: nat)
    requires Exact(w)
    ensures Within(w, d) <==> Good(Strip(w), d)
    decreases w
  {
    if w.Branch? { ExactWithinAll(w.items, d + 1); }
  }

  lemma {:induction false} ExactWithinAll(ws: Looses, d: nat)
    requires ExactAll(ws)
    ensures WithinAll(ws, d) <==> GoodAll(StripAll(ws), d)
    decreases ws
  {
    if ws.More? {
      ExactWithin(ws.head, d);
      ExactWithinAll(ws.tail, d);
    }
  }

  // ---- What liblog writes ----

  /** No stop bytes at all. */
  function Bare(v: Value): Loose { if v.List? then Branch(BareAll(v.items), 0, false) else Leaf(v) }
  function BareAll(vs: Values): Looses { if vs.Nil? then None else More(Bare(vs.head), BareAll(vs.tail)) }

  lemma {:induction false} BareIs(v: Value)
    ensures Strip(Bare(v)) == v && BytesOf(Bare(v)) == Encode(v) && Exact(Bare(v))
    decreases v
  {
    if v.List? {
      BareAllIs(v.items);
      assert BytesAll(BareAll(v.items)) + [] == BytesAll(BareAll(v.items));
    }
  }

  lemma {:induction false} BareAllIs(vs: Values)
    ensures StripAll(BareAll(vs)) == vs && BytesAll(BareAll(vs)) == EncodeAll(vs) && ExactAll(BareAll(vs))
    decreases vs
  {
    if vs.Cons? {
      BareIs(vs.head);
      BareAllIs(vs.tail);
    }
  }
}
