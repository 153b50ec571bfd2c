/** The binary event format: values, their bytes, and the stream of elements a reader should see. */
module EventFormat {
  import opened Bytes

  const MAX_EVENT_PAYLOAD := 4064      // LOGGER_ENTRY_MAX_PAYLOAD - sizeof(int32_t)
  const STORAGE_SIZE := 4068           // LOGGER_ENTRY_MAX_PAYLOAD
  const MAX_NEST := 8                  // ANDROID_MAX_LIST_NEST_DEPTH
  const MAX_ELEMENTS := 127            // the largest count a signed byte can hold

  const TYPE_INT: byte := 0
  const TYPE_LONG: byte := 1
  const TYPE_STRING: byte := 2
  const TYPE_LIST: byte := 3
  const TYPE_FLOAT: byte := 4
  const TYPE_LIST_STOP: byte := 10

  type int32 = x: int | -0x8000_0000 <= x < 0x8000_0000
  type int64 = x: int | -0x8000_0000_0000_0000 <= x < 0x8000_0000_0000_0000

  /** The bytes of a C string, without its terminator. */
  type Text = s: seq<byte> | 0 !in s

  /** Floats are carried as their 32 bits. */
  datatype Value = Int(i: int32) | Long(l: int64) | Float(bits: uint32) | Str(s: Text) | List(items: Values)
  datatype Values = Nil | Cons(head: Value, tail: Values)

  function Length(vs: Values): nat { if vs.Nil? then 0 else 1 + Length(vs.tail) }

  function Bits32(i: int32): uint32 { if i < 0 then i + 0x1_0000_0000 else i }
  function Signed32(u: uint32): int32 { if u >= 0x8000_0000 then u - 0x1_0000_0000 else u }
  function Bits64(l: int64): uint64 { if l < 0 then l + 0x1_0000_0000_0000_0000 else l }
  function Signed64(u: uint64): int64 { if u >= 0x8000_0000_0000_0000 then u - 0x1_0000_0000_0000_0000 else u }

  /** Type byte and payload; a list stores the low byte of its length and then its elements. */
  function Encode(v: Value): (s: seq<byte>)
    ensures |s| >= 2 && s[0] <= TYPE_FLOAT
  {
    match v
    case Int(i) => [TYPE_INT] + ToLE(4, Bits32(i))
    case Long(l) => [TYPE_LONG] + ToLE(8, Bits64(l))
    case Float(bits) => [TYPE_FLOAT] + ToLE(4, bits)
    case Str(s) => [TYPE_STRING] + ToLE(4, |s|) + s
    case List(items) => [TYPE_LIST, Length(items) % 256] + EncodeAll(items)
  }

  function EncodeAll(vs: Values): seq<byte>
  {
    if vs.Nil? then [] else Encode(vs.head) + EncodeAll(vs.tail)
  }

  /** The bytes of each type, place by place: numbers least significant byte first, a string behind its length, a list behind its count. */
  lemma BytesByPlace(i: int32, l: int64, bits: uint32, t: Text, items: Values, k: nat)
    ensures var u := if i < 0 then i + 0x1_0000_0000 else i;
      Encode(Int(i)) == [0, u % 256, u / 256 % 256, u / 0x1_0000 % 256, u / 0x100_0000]
    ensures Encode(Float(bits)) == [4, bits % 256, bits / 256 % 256, bits / 0x1_0000 % 256, bits / 0x100_0000]
    ensures var u := if l < 0 then l + 0x1_0000_0000_0000_0000 else l;
      |Encode(Long(l))| == 9 && Encode(Long(l))[0] == 1 && (k < 8 ==> Encode(Long(l))[1 + k] == u / Pow256(k) % 256)
    ensures |t| < 0x1_0000_0000 ==>
      Encode(Str(t)) == [2, |t| % 256, |t| / 256 % 256, |t| / 0x1_0000 % 256, |t| / 0x100_0000] + t
    ensures Encode(List(items)) == [3, Length(items) % 256] + EncodeAll(items)
  {
    FourBytes(Bits32(i));
    FourBytes(bits);
    if k < 8 { ByteOf(8, Bits64(l), k); }
    if |t| < 0x1_0000_0000 {
      FourBytes(|t|);
      assert [2] + ToLE(4, |t|) == [2, |t| % 256, |t| / 256 % 256, |t| / 0x1_0000 % 256, |t| / 0x100_0000];
    }
  }

  lemma FourBytes(u: uint32)
    ensures ToLE(4, u) == [u % 256, u / 256 % 256, u / 0x1_0000 % 256, u / 0x100_0000]
  {
    hide ToLE;
    Widths();
    assert Pow256(3) == 256 * Pow256(2) && Pow256(0) == 1;
    ByteOf(4, u, 0);
    ByteOf(4, u, 1);
    ByteOf(4, u, 2);
    ByteOf(4, u, 3);
  }

  /** What one read yields. */
  datatype Kind = IntK(i: int32) | LongK(l: int64) | FloatK(bits: uint32) | StringK(s: seq<byte>) | ListK | StopK | UnknownK
  datatype Element = Element(kind: Kind, len: nat, complete: bool)

  function LenOf(k: Kind): nat
  {
    match k
    case IntK(_) => 4
    case FloatK(_) => 4
    case LongK(_) => 8
    case StringK(s) => |s|
    case _ => 0
  }

  /** The stream of a value: a list is opened, its elements follow, and it is closed. */
  function Stream(v: Value): (ks: seq<Kind>)
    ensures |ks| > 0 && !ks[0].StopK? && !ks[0].UnknownK?
  {
    match v
    case Int(i) => [IntK(i)]
    case Long(l) => [LongK(l)]
    case Float(bits) => [FloatK(bits)]
    case Str(s) => [StringK(s)]
    case List(items) => [ListK] + StreamAll(items) + [StopK]
  }

  function StreamAll(vs: Values): seq<Kind>
  {
    if vs.Nil? then [] else Stream(vs.head) + StreamAll(vs.tail)
  }

  /** Elements of which none says that reading is complete. */
  function Flagged(ks: seq<Kind>): (es: seq<Element>)
    ensures |es| == |ks| && forall i :: 0 <= i < |ks| ==> es[i] == Element(ks[i], LenOf(ks[i]), false)
  {
    seq(|ks|, i requires 0 <= i < |ks| => Element(ks[i], LenOf(ks[i]), false))
  }

  lemma FlaggedConcat(a: seq<Kind>, b: seq<Kind>)
    ensures Flagged(a + b) == Flagged(a) + Flagged(b)
  {
  }

  /** The same with `complete` set on the last element, and on no other. */
  function Finished(ks: seq<Kind>): (es: seq<Element>)
    requires ks != []
    ensures |es| == |ks|
  {
    var n := |ks| - 1;
    Flagged(ks[..n]) + [Element(ks[n], LenOf(ks[n]), true)]
  }

  /** Read from depth d on: no list too long for its count byte, none nested deeper than a parser can follow. */
  predicate Good(v: Value, d: nat)
  {
    v.List? ==> d < MAX_NEST && Length(v.items) <= MAX_ELEMENTS && GoodAll(v.items, d + 1)
  }

  predicate GoodAll(vs: Values, d: nat)
  {
    vs.Cons? ==> Good(vs.head, d) && GoodAll(vs.tail, d)
  }
}
