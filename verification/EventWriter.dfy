/** The event writer: appends typed elements to a fixed buffer and fills in list counts afterwards. */
module EventWriter {
  import opened Bytes
  import opened EventFormat

  const EIO := -5
  const EOVERFLOW := -75
  const NO_ERROR := 0

  /** strnlen: the bytes before the first NUL, at most `maxlen` of them. */
  function Strnlen(value: seq<byte>, maxlen: nat): (n: nat)
    ensures n <= |value| && n <= maxlen && 0 !in value[..n]
    ensures n == |value| || n == maxlen || value[n] == 0
  {
    if value == [] || maxlen == 0 || value[0] == 0 then 0
    else
      assert value[..1 + Strnlen(value[1..], maxlen - 1)] == [value[0]] + value[1..][..Strnlen(value[1..], maxlen - 1)];
      1 + Strnlen(value[1..], maxlen - 1)
  }

  function Incremented(count: seq<nat>, d: nat): seq<nat>
    requires d < |count|
  {
    count[d := count[d] + 1]
  }

  class EventList {
    const storage: array<byte>
    var pos: nat
    var count: seq<nat>
    var list: seq<nat>
    var depth: nat
    var overflow: bool

    /** Array indices stay in range, overflow or not; nesting past the limit is always an overflow. */
    ghost predicate Valid()
      reads this
    {
      && storage.Length == STORAGE_SIZE && |count| == |list| == MAX_NEST + 1
      && depth <= MAX_NEST + 1 && (depth == MAX_NEST + 1 ==> overflow) && pos >= 2
      && (forall d :: 0 <= d <= MAX_NEST ==> list[d] < MAX_EVENT_PAYLOAD)
    }

    ghost function Written(): seq<byte>
      requires pos <= storage.Length
      reads this, storage
    {
      storage[..pos]
    }

    /** create_android_logger: everything is a list. */
    constructor ()
      ensures Valid() && fresh(storage) && !overflow && depth == 0 && pos == 2
      ensures Written() == [TYPE_LIST, 0] && count == seq(MAX_NEST + 1, i => 0) && list == seq(MAX_NEST + 1, i => 0)[0 := 1]
    {
      storage := new byte[STORAGE_SIZE](i => if i == 0 then TYPE_LIST else 0);
      count, list := seq(MAX_NEST + 1, i => 0), seq(MAX_NEST + 1, i => 0)[0 := 1];
      pos, depth, overflow := 2, 0, false;
    }

    /** Copies the bytes of an element to the write position. */
    method Put(bytes: seq<byte>)
      requires Valid() && pos + |bytes| <= storage.Length
      modifies this`pos, storage
      ensures Valid() && pos == old(pos) + |bytes|
      ensures Written() == old(Written()) + bytes
    {
      var at := pos;
      for i := 0 to |bytes|
        modifies storage
        invariant storage[..at] == old(storage[..at])
        invariant storage[at..at + i] == bytes[..i]
      {
        storage[at + i] := bytes[i];
        assert bytes[..i + 1] == bytes[..i] + [bytes[i]];
      }
      pos := at + |bytes|;
      assert storage[..pos] == storage[..at] + storage[at..pos];
    }

    /** The common part of writing a number: refused once anything has overflowed, and when it does not fit. */
    method WriteScalar(bytes: seq<byte>) returns (ret: int)
      requires Valid() && |bytes| > 0
      modifies this`pos, this`count, this`overflow, storage
      ensures Valid()
      ensures ret == NO_ERROR <==> !old(overflow) && old(pos) + |bytes| <= MAX_EVENT_PAYLOAD
      ensures ret == NO_ERROR ==>
        && !overflow && pos == old(pos) + |bytes| && Written() == old(Written()) + bytes
        && count == Incremented(old(count), depth)
      ensures ret != NO_ERROR ==> ret == EIO && overflow && pos == old(pos) && count == old(count) && storage[..] == old(storage[..])
    {
      if overflow {
        return EIO;
      }
      if pos + |bytes| > MAX_EVENT_PAYLOAD {
        overflow := true;
        return EIO;
      }
      count := Incremented(count, depth);
      Put(bytes);
      ret := NO_ERROR;
    }

    method WriteInt32(value: int32) returns (ret: int)
      requires Valid()
      modifies this`pos, this`count, this`overflow, storage
      ensures Valid()
      ensures ret == NO_ERROR <==> !old(overflow) && old(pos) + 5 <= MAX_EVENT_PAYLOAD
      ensures ret == NO_ERROR ==>
        !overflow && pos == old(pos) + 5 && Written() == old(Written()) + Encode(Int(value)) && count == Incremented(old(count), depth)
      ensures ret != NO_ERROR ==> ret == EIO && overflow && pos == old(pos) && count == old(count) && storage[..] == old(storage[..])
    {
      ret := WriteScalar([TYPE_INT] + ToLE(4, Bits32(value)));
    }

    method WriteInt64(value: int64) returns (ret: int)
      requires Valid()
      modifies this`pos, this`count, this`overflow, storage
      ensures Valid()
      ensures ret == NO_ERROR <==> !old(overflow) && old(pos) + 9 <= MAX_EVENT_PAYLOAD
      ensures ret == NO_ERROR ==>
        !overflow && pos == old(pos) + 9 && Written() == old(Written()) + Encode(Long(value)) && count == Incremented(old(count), depth)
      ensures ret != NO_ERROR ==> ret == EIO && overflow && pos == old(pos) && count == old(count) && storage[..] == old(storage[..])
    {
      ret := WriteScalar([TYPE_LONG] + ToLE(8, Bits64(value)));
    }

    method WriteFloat32(bits: uint32) returns (ret: int)
      requires Valid()
      modifies this`pos, this`count, this`overflow, storage
      ensures Valid()
      ensures ret == NO_ERROR <==> !old(overflow) && old(pos) + 5 <= MAX_EVENT_PAYLOAD
      ensures ret == NO_ERROR ==>
        !overflow && pos == old(pos) + 5 && Written() == old(Written()) + Encode(Float(bits)) && count == Incremented(old(count), depth)
      ensures ret != NO_ERROR ==> ret == EIO && overflow && pos == old(pos) && count == old(count) && storage[..] == old(storage[..])
    {
      ret := WriteScalar([TYPE_FLOAT] + ToLE(4, bits));
    }

    /**
     A string that does not fit is cut to the room there is, but the write position still advances by the
     uncut length: only an uncut string leaves the writer within its payload.
     */
    method WriteString8Len(value: seq<byte>, maxlen: nat) returns (ret: int)
      requires Valid() && |value| < 0x8000_0000
      modifies this`pos, this`count, this`overflow, storage
      ensures Valid()
      ensures var text := value[..Strnlen(value, maxlen)];
        var room := MAX_EVENT_PAYLOAD - old(pos) - 5;
        if old(overflow) || (|text| > room && room <= 0) then
          ret == EIO && overflow && pos == old(pos) && count == old(count) && storage[..] == old(storage[..])
        else
          && ret == (if |text| > room then room else |text|) && !overflow && pos == old(pos) + 5 + |text| && count == Incremented(old(count), depth)
          && storage[..old(pos) + 5 + ret] == old(storage[..pos]) + Encode(Str(text[..ret]))
      ensures !old(overflow) && !overflow ==> (pos <= MAX_EVENT_PAYLOAD <==> ret == Strnlen(value, maxlen))
    {
      if overflow {
        return EIO;
      }
      var len: int := Strnlen(value, maxlen);
      var needed := 5 + len;
      ghost var text := value[..len];
      if pos + needed > MAX_EVENT_PAYLOAD {
        len := MAX_EVENT_PAYLOAD - pos - 5;
        if len <= 0 {
          overflow := true;
          return EIO;
        }
      }
      count := Incremented(count, depth);
      var start := pos;
      assert text[..len] == value[..len];
      Put([TYPE_STRING] + ToLE(4, len) + value[..len]);
      assert Encode(Str(text[..len])) == [TYPE_STRING] + ToLE(4, len) + text[..len];
      pos := start + needed;
      ret := len;
    }

    /** Opens a list: its header goes out with a zero count, to be filled in at its end. */
    method WriteListBegin() returns (ret: int)
      requires Valid()
      modifies this, storage
      ensures Valid()
      ensures ret == NO_ERROR <==> !old(overflow) && old(depth) < MAX_NEST && old(pos) + 2 <= MAX_EVENT_PAYLOAD
      ensures ret == NO_ERROR ==>
        && !overflow && depth == old(depth) + 1 && pos == old(pos) + 2
        && count == Incremented(old(count), old(depth))[depth := 0] && list == old(list)[depth := old(pos) + 1]
        && Written() == old(Written()) + [TYPE_LIST, 0]
      ensures ret != NO_ERROR ==> overflow && pos == old(pos) && storage[..] == old(storage[..]) && list == old(list)
      ensures ret != NO_ERROR ==>
        if old(depth) <= MAX_NEST && old(pos) + 2 <= MAX_EVENT_PAYLOAD then
          depth == old(depth) + 1 && count == Incremented(old(count), old(depth)) && ret == (if depth > MAX_NEST then EOVERFLOW else EIO)
        else
          depth == old(depth) && count == old(count) && ret == (if depth > MAX_NEST then EOVERFLOW else EIO)
    {
      if depth > MAX_NEST {
        overflow := true;
        return EOVERFLOW;
      }
      if pos + 2 > MAX_EVENT_PAYLOAD {
        overflow := true;
        return EIO;
      }
      count := Incremented(count, depth);
      depth := depth + 1;
      if depth > MAX_NEST {
        overflow := true;
        return EOVERFLOW;
      }
      if overflow {
        return EIO;
      }
      list := list[depth := pos + 1];
      count := count[depth := 0];
      Put([TYPE_LIST, 0]);
      ret := NO_ERROR;
    }

    /** Closes a list: the low byte of its length goes where its header left room for it. */
    method WriteListEnd() returns (ret: int)
      requires Valid()
      modifies this, storage
      ensures Valid() && pos == old(pos) && count == old(count) && list == old(list)
      ensures ret == NO_ERROR <==> 1 <= old(depth) <= MAX_NEST && old(list)[old(depth)] > 0
      ensures ret == NO_ERROR ==>
        && overflow == old(overflow) && depth == old(depth) - 1
        && storage[..] == old(storage[..])[list[old(depth)] := count[old(depth)] % 256]
      ensures ret != NO_ERROR ==> ret == EOVERFLOW && overflow && storage[..] == old(storage[..])
      ensures depth == if old(depth) == 0 then 0 else old(depth) - 1
    {
      if depth > MAX_NEST {
        overflow := true;
        depth := depth - 1;
        return EOVERFLOW;
      }
      if depth == 0 {
        overflow := true;
        return EOVERFLOW;
      }
      if list[depth] <= 0 {
        depth := depth - 1;
        overflow := true;
        return EOVERFLOW;
      }
      storage[list[depth]] := count[depth] % 256;
      depth := depth - 1;
      ret := NO_ERROR;
    }

    /**
     android_log_write_list_buffer: the payload starts at `start` and has `len` bytes. The outer list is left
     away around a single element; nothing comes out while a list is still open.
     */
    method WriteListBuffer() returns (start: nat, len: int)
      requires Valid()
      modifies storage
      ensures depth != 0 ==> len == EIO && storage[..] == old(storage[..])
      ensures depth == 0 ==>
        && start == (if count[0] <= 1 then 2 else 0) && len == pos - start
        && storage[..] == old(storage[..])[1 := count[0] % 256]
    {
      if depth != 0 {
        return 0, EIO;
      }
      storage[1] := count[0] % 256;
      start, len := 0, pos;
      if count[0] <= 1 {
        len := len - 2;
        if len < 0 {
          len := 0;
        }
        start := 2;
      }
    }
  }
}
