/** Event lists end to end: a tree of values written through the writer and read back through the parser. */
module EventLists {
  import opened Bytes
  import opened EventFormat
  import opened EventWriter
  import opened EventParser
  import opened EventRoundTrip

  function Max(a: nat, b: nat): nat { if a > b then a else b }

  /** How many lists are open at once while the value is written. */
  function Nesting(v: Value): nat { if v.List? then 1 + NestingAll(v.items) else 0 }
  function NestingAll(vs: Values): nat { if vs.Nil? then 0 else Max(Nesting(vs.head), NestingAll(vs.tail)) }

  /** What the writer has written and what it knows about the lists still open. */
  datatype Progress = Progress(written: seq<byte>, depth: nat, count: seq<nat>, list: seq<nat>)

  ghost function ProgressOf(w: EventList): Progress
    requires w.pos <= w.storage.Length
    reads w, w.storage
  {
    Progress(w.Written(), w.depth, w.count, w.list)
  }

  /** Bytes and n elements were added to the list being written, and nothing around it changed. */
  ghost predicate Added(a: Progress, b: Progress, bytes: seq<byte>, n: nat)
  {
    && b.written == a.written + bytes && b.depth == a.depth <= MAX_NEST
    && |a.count| == |a.list| == |b.count| == |b.list| == MAX_NEST + 1
    && (forall i :: 0 <= i <= a.depth ==> b.list[i] == a.list[i])
    && (forall i :: 0 <= i < a.depth ==> b.count[i] == a.count[i]) && b.count[a.depth] == a.count[a.depth] + n
  }

  lemma AddedTwice(a: Progress, b: Progress, c: Progress, x: seq<byte>, y: seq<byte>, m: nat, n: nat)
    requires Added(a, b, x, m) && Added(b, c, y, n)
    ensures Added(a, c, x + y, m + n)
  {
    assert a.written + x + y == a.written + (x + y);
  }

  ghost predicate Ready(w: EventList, size: nat, nesting: nat)
    reads w
  {
    w.Valid() && !w.overflow && w.pos + size <= MAX_EVENT_PAYLOAD && w.depth + nesting <= MAX_NEST
  }

  /** Writing any value that fits appends exactly its encoding. */
  method WriteValue(w: EventList, v: Value)
    requires Ready(w, |Encode(v)|, Nesting(v))
    modifies w, w.storage
    ensures Ready(w, 0, 0) && Added(old(ProgressOf(w)), ProgressOf(w), Encode(v), 1)
    decreases v
  {
    match v {
      case Int(i) => var _ := w.WriteInt32(i);
      case Long(l) => var _ := w.WriteInt64(l);
      case Float(bits) => var _ := w.WriteFloat32(bits);
      case Str(s) =>
        FullText(s, MAX_EVENT_PAYLOAD);
        var _ := w.WriteString8Len(s, MAX_EVENT_PAYLOAD);
      case List(items) => WriteList(w, items);
    }
  }

  lemma FullText(s: Text, n: nat)
    requires n >= |s|
    ensures Strnlen(s, n) == |s| && s[..|s|] == s
  {
    assert forall k :: 0 <= k < |s| ==> s[k] in s;
  }

  method WriteList(w: EventList, items: Values)
    requires Ready(w, 2 + |EncodeAll(items)|, 1 + NestingAll(items))
    modifies w, w.storage
    ensures Ready(w, 0, 0) && Added(old(ProgressOf(w)), ProgressOf(w), Encode(List(items)), 1)
    decreases items, 1
  {
    hide EncodeAll;
    ghost var a := ProgressOf(w);
    var _ := w.WriteListBegin();
    ghost var b := ProgressOf(w);
    WriteItems(w, items);
    ghost var c, filled := ProgressOf(w), w.storage[..];
    var _ := w.WriteListEnd();
    Filled(a.written, EncodeAll(items), Length(items) % 256);
    assert c.written == filled[..w.pos] && w.storage[..w.pos] == c.written[|a.written| + 1 := Length(items) % 256];
  }

  lemma Filled(before: seq<byte>, body: seq<byte>, n: byte)
    ensures (before + [TYPE_LIST, 0] + body)[|before| + 1 := n] == before + ([TYPE_LIST, n] + body)
  {
  }

  method WriteItems(w: EventList, items: Values)
    requires Ready(w, |EncodeAll(items)|, NestingAll(items))
    modifies w, w.storage
    ensures Ready(w, 0, 0) && Added(old(ProgressOf(w)), ProgressOf(w), EncodeAll(items), Length(items))
    decreases items, 0
  {
    if items.Cons? {
      hide Added, Encode;
      ghost var a := ProgressOf(w);
      WriteValue(w, items.head);
      ghost var b := ProgressOf(w);
      assert w.pos == |b.written| && w.depth == a.depth && |b.written| == |a.written| + |Encode(items.head)| by { AddedSize(a, b, Encode(items.head), 1); }
      WriteItems(w, items.tail);
      AddedTwice(a, b, ProgressOf(w), Encode(items.head), EncodeAll(items.tail), 1, Length(items.tail));
    }
  }

  lemma AddedSize(a: Progress, b: Progress, bytes: seq<byte>, n: nat)
    requires Added(a, b, bytes, n)
    ensures |b.written| == |a.written| + |bytes| && b.depth == a.depth
  {
  }

  /** What a payload written from these elements says: a single one stands alone, others are wrapped in a list. */
  function Payload(items: Values): Value
    requires items.Cons?
  {
    if items.tail.Nil? then items.head else List(items)
  }

  /** Writes the elements and takes the finished payload. */
  method WriteAll(items: Values) returns (payload: seq<byte>)
    requires items.Cons? && 2 + |EncodeAll(items)| <= MAX_EVENT_PAYLOAD && NestingAll(items) <= MAX_NEST
    ensures payload == Encode(Payload(items))
  {
    hide Encode;
    var w := new EventList();
    WriteItems(w, items);
    ghost var filled := w.storage[..];
    var start, len := w.WriteListBuffer();
    payload := w.storage[start..start + len];
    assert filled[..w.pos] == [TYPE_LIST, 0] + EncodeAll(items);
    assert w.storage[..w.pos] == filled[..w.pos][1 := Length(items) % 256] == [TYPE_LIST, Length(items) % 256] + EncodeAll(items);
    assert payload == w.storage[..w.pos][start..];
    PayloadBytes(items);
  }

  lemma PayloadBytes(items: Values)
    requires items.Cons?
    ensures items.tail.Nil? ==> EncodeAll(items) == Encode(Payload(items))
    ensures items.tail.Cons? ==> Encode(Payload(items)) == [TYPE_LIST, Length(items) % 256] + EncodeAll(items)
    ensures items.tail.Nil? <==> Length(items) <= 1
  {
  }

  /**
   Writing any non-empty tree that fits and reading the payload back element by element gives its stream,
   complete exactly at the end, if and only if every list is within the limits of the format.
   */
  method WriteAndRead(items: Values) returns (elements: seq<Element>)
    requires items.Cons? && 2 + |EncodeAll(items)| <= MAX_EVENT_PAYLOAD && NestingAll(items) <= MAX_NEST
    ensures |elements| == |Stream(Payload(items))|
    ensures elements == Finished(Stream(Payload(items))) <==> Good(Payload(items), 0)
  {
    hide Peeked, After, Ok;
    var payload := WriteAll(items);
    RoundTrip(Payload(items));
    var r := new EventReader(payload);
    ghost var s := r.View();
    elements := [];
    var n := |Stream(Payload(items))|;
    for i := 0 to n
      invariant Ok(s) && Ok(r.View()) && fresh(r) && r.View() == StateAfter(s, i)
      invariant elements == Elements(s, i)
    {
      var e := r.ReadNext(false);
      ElementsConcat(s, i, 1);
      ReadOne(StateAfter(s, i));
      elements := elements + [e];
    }
  }
}
