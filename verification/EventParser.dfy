/**
 The pull parser of event payloads: `Peeked` is what a read yields in a state and `After` the state it
 leaves. Both are defined for arbitrary bytes, and the parser object is proved to follow them.
 */
module EventParser {
  import opened Bytes
  import opened EventFormat

  datatype State = State(storage: seq<byte>, len: nat, pos: nat, count: seq<uint32>, depth: nat, stop: bool)

  /** Holds from initialisation on, whatever the bytes; array indices are in range because of it. */
  ghost predicate Ok(s: State)
  {
    && |s.storage| == STORAGE_SIZE && s.pos <= s.len <= MAX_EVENT_PAYLOAD
    && (forall i :: s.len <= i < STORAGE_SIZE ==> s.storage[i] == 0)
    && |s.count| == MAX_NEST + 1 && s.count[0] == 0 && s.depth <= MAX_NEST + 1
  }

  /** Nothing can be parsed from here: nested too deep, or a count beyond what a payload can hold. */
  predicate Refused(s: State)
    requires |s.count| == MAX_NEST + 1
  {
    s.depth > MAX_NEST || s.count[s.depth] >= MAX_EVENT_PAYLOAD / 2
  }

  /** The element count is a signed byte, widened to 32 bits. */
  function Widened(b: byte): uint32 { if b >= 128 then b + 0xFFFF_FF00 else b }

  function Word(b: seq<byte>): uint32
    requires |b| == 4
  {
    FromLEBound(b);
    Widths();
    FromLE(b)
  }

  function DoubleWord(b: seq<byte>): uint64
    requires |b| == 8
  {
    FromLEBound(b);
    Widths();
    FromLE(b)
  }

  /** The four bytes after the type byte. */
  function Data(s: State): seq<byte>
    requires s.pos + 5 <= |s.storage|
  {
    s.storage[s.pos + 1..s.pos + 5]
  }

  /** Length fields no string of a payload can have. */
  predicate TooLong(raw: uint32) { 0xFFFF <= raw < 0x8000_0000 }

  /** A length field is 32 bits wide; reading keeps 16 of them and never goes past the end. */
  function TextLen(raw: uint32, room: nat): (n: nat)
    ensures n <= room
  {
    if raw % 0x1_0000 > room then room else raw % 0x1_0000
  }

  predicate NoText(raw: uint32, room: nat) { raw % 0x1_0000 > room && room == 0 }

  /** What reading or peeking yields. */
  function Peeked(s: State): Element
    requires Ok(s)
  {
    if Refused(s) then
      Element(if s.stop || (s.depth <= MAX_NEST && s.count[s.depth] == 0) then StopK else UnknownK, 0, true)
    else if s.stop then
      Element(StopK, 0, s.count[0] == 0 && (s.depth == 0 || (s.depth == 1 && s.count[1] == 0)))
    else if s.pos + 1 > s.len then
      Element(UnknownK, 0, true)
    else
      var solitary := s.depth == 0 && s.count[0] == 0;
      match s.storage[s.pos]
      case 0 => if s.pos + 5 > s.len then Element(UnknownK, 4, false) else Element(IntK(Signed32(Word(Data(s)))), 4, solitary)
      case 4 => if s.pos + 5 > s.len then Element(UnknownK, 4, false) else Element(FloatK(Word(Data(s))), 4, solitary)
      case 1 =>
        if s.pos + 9 > s.len then Element(UnknownK, 8, false)
        else Element(LongK(Signed64(DoubleWord(s.storage[s.pos + 1..s.pos + 9]))), 8, solitary)
      case 2 =>
        if s.pos + 5 > s.len then Element(UnknownK, 0, true)
        else
          var raw, room := Word(Data(s)), s.len - (s.pos + 5);
          var n := TextLen(raw, room);
          if TooLong(raw) then Element(UnknownK, 0, false)
          else if NoText(raw, room) then Element(UnknownK, 0, true)
          else Element(StringK(s.storage[s.pos + 5..s.pos + 5 + n]), n, solitary)
      case 3 => if s.pos + 2 > s.len then Element(UnknownK, 0, true) else Element(ListK, 0, s.depth >= MAX_NEST)
      case 10 => Element(if s.depth > 0 then StopK else UnknownK, 0, s.depth == 0)
      case _ => Element(UnknownK, 0, false)
  }

  /** One element of the list being read is used up; the list ends when none is left. */
  function Used(s: State, n: nat): State
    requires Ok(s) && s.depth <= MAX_NEST
  {
    var c := s.count[s.depth];
    var left: uint32 := if c == 0 then 0 else c - 1;
    s.(pos := s.pos + n, count := s.count[s.depth := left], stop := s.stop || left == 0)
  }

  /** The state after a read. */
  function After(s: State): (t: State)
    requires Ok(s)
  {
    if Refused(s) then s
    else if s.stop then
      var p := s.pos + if s.storage[s.pos] == TYPE_LIST_STOP then 1 else 0;
      if s.depth == 0 then s.(pos := p, stop := false)
      else s.(pos := p, depth := s.depth - 1, stop := s.count[s.depth - 1] == 0)
    else if s.pos + 1 > s.len then s
    else
      match s.storage[s.pos]
      case 0 => if s.pos + 5 > s.len then s else Used(s, 5)
      case 4 => if s.pos + 5 > s.len then s else Used(s, 5)
      case 1 => if s.pos + 9 > s.len then s else Used(s, 9)
      case 2 =>
        if s.pos + 5 > s.len then s
        else
          var raw, room := Word(Data(s)), s.len - (s.pos + 5);
          if TooLong(raw) || NoText(raw, room) then s else Used(s, 5 + TextLen(raw, room))
      case 3 => if s.pos + 2 > s.len then s else Entered(s)
      case 10 => s.(pos := s.pos + 1, depth := if s.depth > 0 then s.depth - 1 else 0)
      case _ => s
  }

  function Entered(s: State): State
    requires Ok(s) && s.depth <= MAX_NEST && s.pos + 2 <= s.len
  {
    var n, c := s.storage[s.pos + 1], s.count[s.depth];
    var outer := if c == 0 then s.count else s.count[s.depth := c - 1];
    s.(pos := s.pos + 2, depth := s.depth + 1, stop := n == 0,
       count := if s.depth + 1 <= MAX_NEST then outer[s.depth + 1 := Widened(n)] else outer)
  }

  // ---- Totality ----

  /** What is left to read; a stop still owed and every open list count too. */
  function Measure(s: State): int { 2 * (s.len - s.pos) + s.depth + (if s.stop then 1 else 0) }

  /** Any bytes: a read stays in bounds, and one that neither fails nor completes uses something up. */
  lemma ReadStaysOk(s: State)
    requires Ok(s)
    ensures Ok(After(s)) && After(s).storage == s.storage && After(s).len == s.len
    ensures Measure(s) >= 0 && Measure(After(s)) >= 0
    ensures !Peeked(s).kind.UnknownK? && !Peeked(s).complete ==> Measure(After(s)) < Measure(s)
  {
    hide FromLE;
    var t := After(s);
    if !Refused(s) && s.stop {
      assert s.storage[s.pos] == TYPE_LIST_STOP ==> s.pos < s.len;
    }
  }

  /** A failed read uses nothing up, so that it fails again the same way; only a stray stop byte outside any list is stepped over. */
  lemma FailureStays(s: State)
    requires Ok(s) && Peeked(s).kind.UnknownK?
    ensures After(s) == if !Refused(s) && s.pos < s.len && s.storage[s.pos] == 10 then s.(pos := s.pos + 1) else s
    ensures After(s) == s ==> Ok(After(s)) && Peeked(After(s)) == Peeked(s)
  {
    hide FromLE;
  }

  /** A byte that is no type, and a string length between 65535 and 2^31, are failures. */
  lemma BadBytes(s: State)
    requires Ok(s) && !Refused(s) && !s.stop && s.pos < s.len
    ensures s.storage[s.pos] !in [0, 1, 2, 3, 4, 10] ==> Peeked(s) == Element(UnknownK, 0, false)
    ensures s.storage[s.pos] == 2 && s.pos + 5 <= s.len && 0xFFFF <= FromLE(s.storage[s.pos + 1..s.pos + 5]) < 0x8000_0000 ==>
      Peeked(s) == Element(UnknownK, 0, false)
  {
  }

  function Elements(s: State, n: nat): (es: seq<Element>)
    requires Ok(s)
    ensures |es| == n
    decreases n
  {
    if n == 0 then [] else ReadStaysOk(s); [Peeked(s)] + Elements(After(s), n - 1)
  }

  function StateAfter(s: State, n: nat): (t: State)
    requires Ok(s)
    ensures Ok(t) && t.storage == s.storage && t.len == s.len
    decreases n
  {
    if n == 0 then s else ReadStaysOk(s); StateAfter(After(s), n - 1)
  }

  /** Reading any bytes comes to an end: a failure or a final element within twice the length plus one. */
  lemma {:induction false} ReadingEnds(s: State) returns (k: nat)
    requires Ok(s)
    ensures k <= Measure(s)
    ensures var e := Peeked(StateAfter(s, k)); e.kind.UnknownK? || e.complete
    ensures forall i :: 0 <= i < k ==> !Elements(s, k)[i].kind.UnknownK? && !Elements(s, k)[i].complete
    decreases Measure(s)
  {
    hide Peeked, After, Ok, Measure;
    ReadStaysOk(s);
    if Peeked(s).kind.UnknownK? || Peeked(s).complete {
      k := 0;
    } else {
      k := ReadingEnds(After(s));
      k := k + 1;
    }
  }

  lemma {:induction false} ElementsConcat(s: State, a: nat, b: nat)
    requires Ok(s)
    ensures Elements(s, a + b) == Elements(s, a) + Elements(StateAfter(s, a), b)
    ensures StateAfter(s, a + b) == StateAfter(StateAfter(s, a), b)
    decreases a
  {
    hide Peeked, After, Ok;
    if a > 0 {
      ReadStaysOk(s);
      ElementsConcat(After(s), a - 1, b);
    }
  }

  lemma ReadOne(s: State)
    requires Ok(s)
    ensures Ok(After(s)) && Elements(s, 1) == [Peeked(s)] && StateAfter(s, 1) == After(s)
  {
    ReadStaysOk(s);
    assert Elements(s, 1) == [Peeked(s)] + Elements(After(s), 0);
    assert StateAfter(s, 1) == StateAfter(After(s), 0);
  }


  // ---- The parser object ----

  ghost function Started(msg: seq<byte>): State
  {
    var n := if |msg| <= MAX_EVENT_PAYLOAD then |msg| else MAX_EVENT_PAYLOAD;
    State(msg[..n] + seq(STORAGE_SIZE - n, i => 0), n, 0, seq(MAX_NEST + 1, i => 0), 0, false)
  }

  class EventReader {
    const storage: array<byte>
    var pos: nat
    var count: seq<uint32>
    var depth: nat
    var stop: bool
    const len: nat

    ghost function View(): State
      reads this, storage
    {
      State(storage[..], len, pos, count, depth, stop)
    }

    /** create_android_log_parser: a message longer than a payload is cut. */
    constructor (msg: seq<byte>)
      ensures Ok(View()) && View() == Started(msg)
    {
      var n := if |msg| <= MAX_EVENT_PAYLOAD then |msg| else MAX_EVENT_PAYLOAD;
      storage := new byte[STORAGE_SIZE](i => if 0 <= i < n then msg[i] else 0);
      pos, count, depth, stop, len := 0, seq(MAX_NEST + 1, i => 0), 0, false, n;
      new;
      assert storage[..] == Started(msg).storage;
    }

    /** android_log_read_next and, with `peek`, android_log_peek_next: peeking changes nothing and yields what reading would. */
    method ReadNext(peek: bool) returns (elem: Element)
      requires Ok(View())
      modifies this
      ensures elem == old(Peeked(View())) && Ok(View())
      ensures View() == if peek then old(View()) else old(After(View()))
    {
      hide FromLE;
      ReadStaysOk(View());
      if depth > MAX_NEST || count[depth] >= MAX_EVENT_PAYLOAD / 2 {
        var kind := UnknownK;
        if stop || (depth <= MAX_NEST && count[depth] == 0) {
          kind := StopK;
        }
        return Element(kind, 0, true);
      }
      if stop {
        elem := ReadStop(peek);
        return;
      }
      if pos + 1 > len {
        return Element(UnknownK, 0, true);
      }
      var kind := storage[pos];
      if kind == TYPE_INT || kind == TYPE_FLOAT {
        if pos + 5 > len {
          return Element(UnknownK, 4, false);
        }
        var bits := Word(storage[pos + 1..pos + 5]);
        elem := Element(if kind == TYPE_INT then IntK(Signed32(bits)) else FloatK(bits), 4, depth == 0 && count[0] == 0);
        UseElement(peek, 5);
      } else if kind == TYPE_LONG {
        if pos + 9 > len {
          return Element(UnknownK, 8, false);
        }
        elem := Element(LongK(Signed64(DoubleWord(storage[pos + 1..pos + 9]))), 8, depth == 0 && count[0] == 0);
        UseElement(peek, 9);
      } else if kind == TYPE_STRING {
        elem := ReadText(peek);
      } else if kind == TYPE_LIST {
        if pos + 2 > len {
          return Element(UnknownK, 0, true);
        }
        elem := Element(ListK, 0, depth >= MAX_NEST);
        if peek {
          return;
        }
        if count[depth] != 0 {
          count := count[depth := count[depth] - 1];
        }
        var elements := storage[pos + 1];
        stop := elements == 0;
        depth := depth + 1;
        if depth <= MAX_NEST {
          count := count[depth := Widened(elements)];
        }
        pos := pos + 2;
      } else if kind == TYPE_LIST_STOP {
        elem := Element(UnknownK, 0, depth == 0);
        if !peek {
          pos := pos + 1;
        }
        if depth > 0 {
          elem := elem.(kind := StopK);
          if !peek {
            depth := depth - 1;
          }
        }
      } else {
        elem := Element(UnknownK, 0, false);
      }
    }

    /** A list has ended: leave it, taking along a superfluous stop byte. */
    method ReadStop(peek: bool) returns (elem: Element)
      requires Ok(View()) && !Refused(View()) && stop
      modifies this
      ensures elem == old(Peeked(View()))
      ensures View() == if peek then old(View()) else old(After(View()))
    {
      elem := Element(StopK, 0, count[0] == 0 && (depth == 0 || (depth == 1 && count[1] == 0)));
      if !peek {
        if storage[pos] == TYPE_LIST_STOP {
          pos := pos + 1;
        }
        if depth != 0 {
          depth := depth - 1;
          if count[depth] != 0 {
            stop := false;
          }
        } else {
          stop := false;
        }
      }
    }

    method ReadText(peek: bool) returns (elem: Element)
      requires Ok(View()) && !Refused(View()) && !stop && pos < len && storage[pos] == TYPE_STRING
      modifies this
      ensures elem == old(Peeked(View()))
      ensures View() == if peek then old(View()) else old(After(View()))
    {
      if pos + 5 > len {
        return Element(UnknownK, 0, true);
      }
      var length := Word(storage[pos + 1..pos + 5]);
      if 0xFFFF <= length < 0x8000_0000 {
        return Element(UnknownK, 0, false);
      }
      var n := length % 0x1_0000;
      if pos + 5 + n > len {
        n := len - (pos + 5);
        if n == 0 {
          return Element(UnknownK, 0, true);
        }
      }
      elem := Element(StringK(storage[pos + 5..pos + 5 + n]), n, depth == 0 && count[0] == 0);
      UseElement(peek, 5 + n);
    }

    /** The common suffix of every element that is not a list. */
    method UseElement(peek: bool, n: nat)
      requires Ok(View()) && depth <= MAX_NEST && !stop
      modifies this
      ensures View() == if peek then old(View()) else Used(old(View()), n)
    {
      if !peek {
        if count[depth] == 0 {
          stop := true;
        } else {
          count := count[depth := count[depth] - 1];
          if count[depth] == 0 {
            stop := true;
          }
        }
        pos := pos + n;
      }
    }
  }
}
