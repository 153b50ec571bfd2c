/** LogReaderThread's two passes: the first counts what a tail request may choose from, the second picks the end of it. */
module TailReader {
  import opened FlatReader

  /** What a filter is shown of an entry. */
  datatype Item = Item(logId: LogId, pid: nat, sequence: nat, realtime: nat)

  const EPOCH := 0

  function Picked(items: seq<Item>, p: Item -> bool): (r: seq<Item>)
    ensures |r| <= |items|
  {
    if items == [] then []
    else Picked(items[..|items| - 1], p) + if p(items[|items| - 1]) then [items[|items| - 1]] else []
  }

  lemma {:induction false} PickedPrefix(items: seq<Item>, p: Item -> bool, k: nat)
    requires k <= |items|
    ensures Picked(items[..k], p) <= Picked(items, p)
  {
    if k < |items| {
      assert items[..|items| - 1][..k] == items[..k];
      PickedPrefix(items[..|items| - 1], p, k);
    } else {
      assert items[..k] == items;
    }
  }

  lemma {:induction false} PickedSame(items: seq<Item>, p: Item -> bool, q: Item -> bool)
    requires forall i :: 0 <= i < |items| ==> p(items[i]) == q(items[i])
    ensures Picked(items, p) == Picked(items, q)
  {
    if items != [] { PickedSame(items[..|items| - 1], p, q); }
  }

  /** More entries at the end change neither what was visited nor where one came from. */
  lemma Grown(items: seq<Item>, more: seq<Item>, i: nat)
    requires i <= |items|
    ensures (items + more)[..i] == items[..i] && i <= |items + more|
    ensures forall a: seq<Item>, b: seq<Item> {:trigger a + b + more} :: a + b == items ==> items + more == a + (b + more)
  {
  }

  lemma PickedNext(items: seq<Item>, p: Item -> bool, i: nat)
    requires i < |items|
    ensures Picked(items[..i + 1], p) == if p(items[i]) then Picked(items[..i], p) + [items[i]] else Picked(items[..i], p)
  {
    assert items[..i + 1][..i] == items[..i];
  }

  function Min(a: nat, b: nat): nat { if a < b then a else b }

  /** Of the wanted process, and not before the start time. */
  function InFirst(pid: nat, start: nat): Item -> bool
  {
    (x: Item) => (pid == 0 || pid == x.pid) && (start == EPOCH || start <= x.realtime)
  }

  /** Of the wanted process, and after the start time. */
  function InSecond(pid: nat, start: nat): Item -> bool
  {
    (x: Item) => (pid == 0 || pid == x.pid) && (start == EPOCH || start < x.realtime)
  }

  class LogReaderThread {
    const pid: nat
    const nonBlock: bool
    var tail: nat
    var count: nat
    var index: nat
    var startTime: nat
    var skipAhead: seq<nat>
    var release: bool

    constructor (pid: nat, nonBlock: bool, tail: nat, startTime: nat)
      ensures this.pid == pid && this.nonBlock == nonBlock && this.tail == tail && this.startTime == startTime
      ensures count == index == 0 && skipAhead == seq(LOG_ID_MAX, i => 0) && !release
    {
      this.pid, this.nonBlock, this.tail, this.startTime := pid, nonBlock, tail, startTime;
      count, index, skipAhead, release := 0, 0, seq(LOG_ID_MAX, i => 0), false;
    }

    method FilterFirstPass(x: Item) returns (r: FilterResult)
      modifies this`count
      ensures r == Skip && count == old(count) + if InFirst(pid, startTime)(x) then 1 else 0
    {
      if (pid == 0 || pid == x.pid) && (startTime == EPOCH || startTime <= x.realtime) {
        count := count + 1;
      }
      r := Skip;
    }

    /** A non-blocking reader with a tail is through with what the first pass counted. */
    predicate Through() reads this { nonBlock && tail > 0 && index >= count }

    /** The next matching entry is not among the last `tail` of those counted. */
    predicate TooEarly() reads this { count > tail && index + 1 <= count - tail }

    method FilterSecondPass(x: Item) returns (r: FilterResult)
      requires |skipAhead| == LOG_ID_MAX
      modifies this`skipAhead, this`index, this`tail
      ensures r == Write ==>
        && old(skipAhead)[x.logId] == 0 && !release && !old(Through())
        && (pid == 0 || pid == x.pid) && (startTime == EPOCH || startTime < x.realtime)
      ensures old(skipAhead)[x.logId] > 0 ==>
        r == Skip && skipAhead == old(skipAhead)[x.logId := old(skipAhead)[x.logId] - 1] && index == old(index) && tail == old(tail)
      ensures old(skipAhead)[x.logId] == 0 ==> skipAhead == old(skipAhead)
      ensures old(skipAhead)[x.logId] == 0 && (old(Through()) || !InSecond(pid, startTime)(x) || release) ==>
        index == old(index) && tail == old(tail) && r == if old(Through()) || InSecond(pid, startTime)(x) then Stop else Skip
      ensures old(skipAhead)[x.logId] == 0 && !old(Through()) && InSecond(pid, startTime)(x) && !release ==>
        if old(tail) == 0 then r == Write && index == old(index) && tail == 0
        else index == old(index) + 1 && if old(TooEarly()) then r == Skip && tail == old(tail)
                                        else r == Write && tail == if nonBlock then old(tail) else 0
    {
      if skipAhead[x.logId] != 0 {
        skipAhead := skipAhead[x.logId := skipAhead[x.logId] - 1];
        return Skip;
      }
      if nonBlock && tail != 0 && index >= count {
        return Stop;
      }
      if pid != 0 && pid != x.pid {
        return Skip;
      }
      if startTime != EPOCH && x.realtime <= startTime {
        return Skip;
      }
      if release {
        return Stop;
      }
      if tail != 0 {
        index := index + 1;
        if count > tail && index <= count - tail {
          return Skip;
        }
        if !nonBlock {
          tail := 0;
        }
      }
      if skipAhead[x.logId] == 0 {
        return Write;
      }
      return Skip;
    }

    method CountAll(seen: seq<Item>)
      modifies this`count
      ensures count == old(count) + |Picked(seen, InFirst(pid, startTime))|
    {
      for i := 0 to |seen|
        invariant count == old(count) + |Picked(seen[..i], InFirst(pid, startTime))|
      {
        assert seen[..i + 1][..i] == seen[..i];
        var _ := FilterFirstPass(seen[i]);
      }
      assert seen[..|seen|] == seen;
    }

    /**
     The second pass. The lock is given up only while an accepted entry is written, so `arrive(k)` is what is
     appended while the k-th one is. It accepts what it counts from `from` up to the count of the first pass.
     */
    method SendAll(seen: seq<Item>, arrive: nat -> seq<Item>, ghost from: nat) returns (accepted: seq<Item>)
      requires nonBlock && tail > 0 && index == 0 && !release && skipAhead == seq(LOG_ID_MAX, i => 0)
      requires from == if count > tail then count - tail else 0
      modifies this`skipAhead, this`index, this`tail
      ensures tail == old(tail)
      ensures accepted == Reached(Picked(seen + Joined(arrive, |accepted|), InSecond(pid, startTime)), count, tail)
      ensures accepted != [] ==> Reached(Picked(seen, InSecond(pid, startTime)), count, tail) != []
    {
      hide Picked, Reached, Joined;
      ghost var q := InSecond(pid, startTime);
      var items, i := seen, 0;
      accepted := [];
      SendStarts(seen, arrive, q);
      while i < |items|
        invariant i <= |items| && items == seen + Joined(arrive, |accepted|)
        invariant index == |Picked(items[..i], q)| <= count && tail == old(tail) && skipAhead == seq(LOG_ID_MAX, i => 0)
        invariant accepted == Picked(items[..i], q)[Min(index, from)..]
        invariant accepted != [] ==> Reached(Picked(seen, q), count, tail) != []
        decreases count - index, |items| - i
      {
        PickedNext(items, q, i);
        var r := FilterSecondPass(items[i]);
        if r == Stop {
          PassEnds(items, q, i, count, tail);
          return;
        }
        i := i + 1;
        if r == Write {
          if accepted == [] { FirstWrite(seen, arrive, q, i, count, tail); }
          JoinedNext(arrive, |accepted|);
          Grown(items, arrive(|accepted|), i);
          accepted, items := accepted + [items[i - 1]], items + arrive(|accepted|);
        }
      }
      PassEnds(items, q, i, count, tail);
    }

    /**
     Both passes of a non-blocking tail reader under one lock: the first one sees `seen` and writes nothing, so
     nothing is appended before the second one has written an entry of that.
     */
    method TwoPasses(seen: seq<Item>, arrive: nat -> seq<Item>) returns (accepted: seq<Item>)
      requires nonBlock && tail > 0 && count == index == 0 && !release && skipAhead == seq(LOG_ID_MAX, i => 0)
      modifies this`count, this`skipAhead, this`index, this`tail
      ensures tail == old(tail)
      ensures var later := Joined(arrive, |accepted|);
        && accepted == Accepted(seen, later, pid, startTime, tail) && CanArrive(seen, later, pid, startTime, tail)
        && (Ascending(seen + later) ==> (accepted == Asked(seen, pid, startTime, tail) <==>
             GetsAsked(|Picked(seen, InSecond(pid, startTime))|, |Picked(seen, Boundary(pid, startTime))|,
                       |Picked(later, InSecond(pid, startTime))|, tail)))
    {
      CountAll(seen);
      accepted := SendAll(seen, arrive, if count > tail then count - tail else 0);
      ghost var later := Joined(arrive, |accepted|);
      assert seen + [] == seen;
      if Ascending(seen + later) { TailIff(seen, later, pid, startTime, tail); }
    }

    /** Anything that can be appended does get there: all of it while the first entry is written. */
    method TwoPassesWith(seen: seq<Item>, later: seq<Item>) returns (accepted: seq<Item>)
      requires nonBlock && tail > 0 && count == index == 0 && !release && skipAhead == seq(LOG_ID_MAX, i => 0)
      requires CanArrive(seen, later, pid, startTime, tail)
      modifies this`count, this`skipAhead, this`index, this`tail
      ensures tail == old(tail) && accepted == Accepted(seen, later, pid, startTime, tail)
    {
      var arrive := (k: nat) => if k == 0 then later else [];
      accepted := TwoPasses(seen, arrive);
      JoinedAtOnce(arrive, later, |accepted|);
    }

    /** A reader that waits for more, is not told to go, and has nothing to skip first. */
    predicate Waiting() reads this { !nonBlock && !release && skipAhead == seq(LOG_ID_MAX, i => 0) }

    /**
     The second pass of a reader that waits for more: as soon as one entry is written, it takes everything.
     `windows[k]` is what is appended while the k-th one is written.
     */
    method SendOn(seen: seq<Item>, windows: seq<seq<Item>>) returns (accepted: seq<Item>)
      requires Waiting()
      modifies this`skipAhead, this`index, this`tail
      ensures Waiting()
      ensures var all := Picked(seen + Joined(Each(windows), |accepted|), InSecond(pid, startTime));
        SentOn(all, old(tail), old(count), old(index), accepted, tail, index)
      ensures accepted != [] && old(tail) > 0 ==> |Picked(seen, InSecond(pid, startTime))| > Early(old(tail), count, old(index))
    {
      hide Picked, Joined, SentOn, Early, Waiting;
      ghost var q, arrive, t0, i0 := InSecond(pid, startTime), Each(windows), tail, index;
      var items, i := seen, 0;
      accepted := [];
      SendStarts(seen, arrive, q);
      SentOnStarts(tail, count, index);
      while i < |items|
        invariant i <= |items| && items == seen + Joined(arrive, |accepted|) && Waiting()
        invariant SentOn(Picked(items[..i], q), t0, count, i0, accepted, tail, index)
        invariant accepted != [] && t0 > 0 ==> |Picked(seen, q)| > Early(t0, count, i0)
        decreases if |accepted| < |windows| then |windows| - |accepted| else 0, |items| - i
      {
        PickedNext(items, q, i);
        SentOnNext(Picked(items[..i], q), t0, count, i0, accepted, tail, index, items[i]);
        var r := Show(items[i]);
        i := i + 1;
        if r == Write {
          if accepted == [] { FirstShown(seen, arrive, q, i); }
          JoinedNext(arrive, |accepted|);
          var more := if |accepted| < |windows| then windows[|accepted|] else [];
          assert more == arrive(|accepted|);
          Grown(items, more, i);
          accepted, items := accepted + [items[i - 1]], items + more;
        }
      }
      assert items[..|items|] == items;
    }

    /** The filter for a reader that waits. */
    method Show(x: Item) returns (r: FilterResult)
      requires Waiting()
      modifies this`skipAhead, this`index, this`tail
      ensures Waiting() && (r == Skip || r == Write)
      ensures !InSecond(pid, startTime)(x) ==> r == Skip && tail == old(tail) && index == old(index)
      ensures InSecond(pid, startTime)(x) ==>
        && (r == Skip <==> old(tail) > 0 && Early(old(tail), count, old(index)) > 0)
        && tail == (if r == Write then 0 else old(tail)) && index == old(index) + if old(tail) > 0 then 1 else 0
    {
      r := FilterSecondPass(x);
    }

    /** One wake-up: a first pass as long as nothing was written yet, then a second one; the start time counts for the first wake-up only. */
    method WakeUp(w: Wake) returns (accepted: seq<Item>)
      requires Waiting()
      modifies this`count, this`skipAhead, this`index, this`tail, this`startTime
      ensures Waiting() && startTime == EPOCH
      ensures var q, d := InSecond(pid, old(startTime)), old(count) - old(index) + |Picked(w.seen, Boundary(pid, old(startTime)))|;
        && (old(index) <= old(count) || old(tail) == 0 ==> Reply(old(tail), d, Next(w, q, accepted), accepted, tail))
        && (tail > 0 ==> count - index == d)
    {
      hide Picked, Joined;
      if tail != 0 {
        CountAll(w.seen);
      }
      accepted := SendOn(w.seen, w.windows);
      ghost var q := InSecond(pid, startTime);
      PickedConcat(w.seen, Joined(Each(w.windows), |accepted|), q);
      StartTimeShift(w.seen, pid, startTime);
      if accepted == [] { assert Joined(Each(w.windows), 0) == [] && w.seen + [] == w.seen by { NothingJoined(Each(w.windows)); } }
      startTime := EPOCH;
    }

    /**
     A tail reader that waits, over any number of wake-ups: `b` entries that match are stamped exactly at its
     start time. If that is less than the tail, it is sent the last tail - b matching entries of the first
     wake-up that finds any, and every matching one from then on. If not, it is never sent anything.
     */
    method Follow(wakes: seq<Wake>) returns (accepted: seq<Item>, ghost got: seq<Batch>)
      requires Waiting() && tail > 0 && count == index == 0
      modifies this`count, this`skipAhead, this`index, this`tail, this`startTime
      ensures |got| == |wakes|
      ensures forall k :: 0 <= k < |wakes| ==> BatchOf(wakes[k], pid, if k == 0 then old(startTime) else EPOCH, got[k])
      ensures var b := if wakes == [] then 0 else |Picked(wakes[0].seen, Boundary(pid, old(startTime)))|;
        var n := if b < old(tail) then old(tail) - b else 0;
        accepted == (if n > 0 then Owed(got, n) else []) && Shares(got, n > 0, n)
    {
      hide Picked, Joined, Owed, Found, Shares, BatchOf, Reply, Next, Waiting, Boundary, InSecond;
      accepted, got := [], [];
      ghost var start, t := startTime, tail;
      ghost var b := if wakes == [] then 0 else |Picked(wakes[0].seen, Boundary(pid, start))|;
      ghost var n := if b < t then t - b else 0;
      SharesNone(n > 0, n);
      for k := 0 to |wakes|
        invariant |got| == k && Waiting() && startTime == if k == 0 then start else EPOCH
        invariant forall i :: 0 <= i < k ==> BatchOf(wakes[i], pid, if i == 0 then start else EPOCH, got[i])
        invariant accepted == (if n > 0 then Owed(got, n) else []) && Shares(got, n > 0, n)
        invariant if n > 0 && Found(got) then tail == 0 else tail == t && index <= count && count - index == if k == 0 then 0 else b
      {
        if k > 0 { NoBoundary(wakes[k].seen, pid); }
        ghost var tail0, at := tail, if k == 0 then start else EPOCH;
        ghost var d := count - index + |Picked(wakes[k].seen, Boundary(pid, at))|;
        var more := WakeUp(wakes[k]);
        ghost var batch := Next(wakes[k], InSecond(pid, at), more);
        IsBatch(wakes[k], pid, at, more);
        OneReply(got, batch, t, b, d, n, tail0, more, tail);
        got, accepted := got + [batch], accepted + more;
      }
    }

    /**
     From the beginning of time, the accepted entries are exactly the last min(tail, count) matching ones the
     first pass saw, whatever was appended meanwhile.
     */
    method Tail(seen: seq<Item>, arrive: nat -> seq<Item>) returns (accepted: seq<Item>)
      requires nonBlock && tail > 0 && count == index == 0 && !release && skipAhead == seq(LOG_ID_MAX, i => 0) && startTime == EPOCH
      modifies this`count, this`skipAhead, this`index, this`tail
      ensures var all := Picked(seen, InFirst(pid, EPOCH)); accepted == all[|all| - Min(old(tail), |all|)..]
    {
      accepted := TwoPasses(seen, arrive);
      ghost var later := Joined(arrive, |accepted|);
      PickedSame(seen, InFirst(pid, EPOCH), InSecond(pid, EPOCH));
      PickedPrefix(seen + later, InSecond(pid, EPOCH), |seen|);
      assert (seen + later)[..|seen|] == seen;
    }
  }

  /** What is there at a wake-up, and what is appended while the entries it sends are written. */
  datatype Wake = Wake(seen: seq<Item>, windows: seq<seq<Item>>)

  function Each(windows: seq<seq<Item>>): nat -> seq<Item> { (k: nat) => if k < |windows| then windows[k] else [] }

  /** Of one wake-up: the matching entries that are there, and those appended while it is being served. */
  datatype Batch = Batch(now: seq<Item>, later: seq<Item>, sent: nat)

  predicate BatchOf(w: Wake, pid: nat, start: nat, b: Batch)
  {
    b.now == Picked(w.seen, InSecond(pid, start)) && b.later == Picked(Joined(Each(w.windows), b.sent), InSecond(pid, start))
  }

  /** What a wake-up sends: nothing as long as there is nothing or too many were counted, then the end of what is there and all the rest. */
  predicate Reply(tail0: nat, d: int, b: Batch, more: seq<Item>, tail: nat)
  {
    if tail0 == 0 then more == b.now + b.later && tail == 0
    else if b.now == [] || d >= tail0 then more == [] && tail == tail0
    else d >= 0 && more == b.now[|b.now| - Min(|b.now|, tail0 - d)..] + b.later && tail == 0
  }

  /** One more wake-up; `n` is what the tail is worth. */
  lemma OneReply(got: seq<Batch>, b: Batch, t: nat, boundary: nat, d: int, n: nat, tail0: nat, more: seq<Item>, tail: nat)
    requires t > 0 && n == (if boundary < t then t - boundary else 0) && (tail0 > 0 ==> d == boundary) && Reply(tail0, d, b, more, tail) && b.sent == |more| && (more == [] ==> b.later == [])
    requires Shares(got, n > 0, n) && tail0 == if n > 0 && Found(got) then 0 else t
    ensures Shares(got + [b], n > 0, n) && (tail == if n > 0 && Found(got + [b]) then 0 else t)
    ensures n > 0 ==> Owed(got + [b], n) == Owed(got, n) + more
    ensures n == 0 ==> more == []
    ensures Found(got) ==> Found(got + [b])
  {
    hide Owed, Found, Shares;
    OwedNext(got, b, n);
    if !Found(got) { NotFound(got, n); }
    assert |Owed(got + [b], n)| >= |Owed(got, n)|;
    SharesNext(got, n > 0, n, b);
  }

  lemma OwedNext(got: seq<Batch>, b: Batch, n: nat)
    ensures Found(got + [b]) <==> Found(got) || b.now != []
    ensures Owed(got + [b], n) == if Found(got) then Owed(got, n) + b.now + b.later
                                  else if b.now == [] then [] else b.now[|b.now| - Min(|b.now|, n)..] + b.later
  {
    assert (got + [b])[..|got|] == got;
  }

  lemma NotFound(got: seq<Batch>, n: nat)
    requires !Found(got)
    ensures Owed(got, n) == []
  {
  }

  /** Each batch says how many entries went out at it. */
  predicate Shares(got: seq<Batch>, owed: bool, n: nat)
  {
    got != [] ==>
      Shares(got[..|got| - 1], owed, n) &&
      |Owed(got, n)| >= |Owed(got[..|got| - 1], n)| &&
      got[|got| - 1].sent == if owed then |Owed(got, n)| - |Owed(got[..|got| - 1], n)| else 0
  }

  lemma SharesNext(got: seq<Batch>, owed: bool, n: nat, b: Batch)
    requires Shares(got, owed, n) && |Owed(got + [b], n)| >= |Owed(got, n)|
    requires b.sent == if owed then |Owed(got + [b], n)| - |Owed(got, n)| else 0
    ensures Shares(got + [b], owed, n)
  {
    assert (got + [b])[..|got|] == got;
  }

  lemma SharesNone(owed: bool, n: nat)
    ensures Shares([], owed, n) && !Found([]) && Owed([], n) == []
  {
  }

  predicate Found(got: seq<Batch>) { got != [] && (Found(got[..|got| - 1]) || got[|got| - 1].now != []) }

  /** The last n of the first batch that has any, what was appended meanwhile, and all later ones. */
  function Owed(got: seq<Batch>, n: nat): seq<Item>
  {
    if got == [] then []
    else
      var before, b := got[..|got| - 1], got[|got| - 1];
      if Found(before) then Owed(before, n) + b.now + b.later
      else if b.now == [] then []
      else b.now[|b.now| - Min(|b.now|, n)..] + b.later
  }

  ghost function Next(w: Wake, q: Item -> bool, more: seq<Item>): Batch
  {
    Batch(Picked(w.seen, q), Picked(Joined(Each(w.windows), |more|), q), |more|)
  }

  lemma IsBatch(w: Wake, pid: nat, start: nat, more: seq<Item>)
    ensures BatchOf(w, pid, start, Next(w, InSecond(pid, start), more)) && Next(w, InSecond(pid, start), more).sent == |more|
    ensures more == [] ==> Next(w, InSecond(pid, start), more).later == []
  {
  }

  lemma {:induction false} NoBoundary(seen: seq<Item>, pid: nat)
    ensures Picked(seen, Boundary(pid, EPOCH)) == []
  {
    if seen != [] { NoBoundary(seen[..|seen| - 1], pid); }
  }

  lemma NonePicked(q: Item -> bool)
    ensures Picked([], q) == []
  {
  }

  /** How many matching entries a pass skips before it writes one. */
  function Early(tail: nat, count: nat, index: nat): nat { if count > tail + index then count - tail - index else 0 }

  /** A pass of a reader that waits, over these matching entries: all that come after the early ones, if tail is set. */
  predicate SentOn(all: seq<Item>, tail0: nat, count: nat, index0: nat, accepted: seq<Item>, tail: nat, index: nat)
  {
    if tail0 == 0 then accepted == all && tail == 0 && index == index0
    else
      var early := Early(tail0, count, index0);
      if |all| <= early then accepted == [] && tail == tail0 && index == index0 + |all|
      else accepted == all[early..] && tail == 0 && index == index0 + early + 1
  }

  lemma FirstShown(seen: seq<Item>, arrive: nat -> seq<Item>, q: Item -> bool, i: nat)
    requires i <= |seen + Joined(arrive, 0)|
    ensures |Picked((seen + Joined(arrive, 0))[..i], q)| <= |Picked(seen, q)|
  {
    hide Picked;
    assert Joined(arrive, 0) == [] && seen + [] == seen;
    PickedPrefix(seen, q, i);
  }

  lemma NothingJoined(arrive: nat -> seq<Item>)
    ensures Joined(arrive, 0) == []
  {
  }

  lemma SentOnStarts(tail: nat, count: nat, index: nat)
    ensures SentOn([], tail, count, index, [], tail, index)
  {
  }

  lemma SentOnNext(all: seq<Item>, t: nat, count: nat, i0: nat, accepted: seq<Item>, tail: nat, index: nat, x: Item)
    requires SentOn(all, t, count, i0, accepted, tail, index)
    ensures tail > 0 && Early(tail, count, index) > 0 ==> SentOn(all + [x], t, count, i0, accepted, tail, index + 1)
    ensures tail > 0 && Early(tail, count, index) == 0 ==> SentOn(all + [x], t, count, i0, accepted + [x], 0, index + 1) && |all| == Early(t, count, i0)
    ensures tail == 0 ==> SentOn(all + [x], t, count, i0, accepted + [x], 0, index) && (t > 0 ==> accepted != [])
  {
  }

  /** What is appended while the first n accepted entries are written. */
  function Joined(arrive: nat -> seq<Item>, n: nat): seq<Item>
  {
    if n == 0 then [] else Joined(arrive, n - 1) + arrive(n - 1)
  }

  lemma {:induction false} JoinedAtOnce(arrive: nat -> seq<Item>, later: seq<Item>, n: nat)
    requires arrive(0) == later && forall k :: k > 0 ==> arrive(k) == []
    ensures Joined(arrive, n) == if n == 0 then [] else later
  {
    if n > 0 { JoinedAtOnce(arrive, later, n - 1); }
  }

  lemma JoinedNext(arrive: nat -> seq<Item>, n: nat)
    ensures Joined(arrive, n + 1) == Joined(arrive, n) + arrive(n)
  {
  }

  lemma SendStarts(seen: seq<Item>, arrive: nat -> seq<Item>, q: Item -> bool)
    ensures seen == seen + Joined(arrive, 0) && Picked(seen[..0], q) == []
  {
  }

  /** The pass is over when it has counted up to n, or everything. */
  lemma PassEnds(items: seq<Item>, q: Item -> bool, i: nat, n: nat, tail: nat)
    requires i <= |items| && |Picked(items[..i], q)| <= n && (|Picked(items[..i], q)| == n || i == |items|)
    ensures Reached(Picked(items, q), n, tail) == var s := Picked(items[..i], q); s[Min(|s|, if n > tail then n - tail else 0)..]
  {
    hide Picked;
    assert items[..|items|] == items;
    PickedPrefix(items, q, i);
  }

  /** What is written first was seen by the first pass. */
  lemma FirstWrite(seen: seq<Item>, arrive: nat -> seq<Item>, q: Item -> bool, i: nat, n: nat, tail: nat)
    requires i <= |seen + Joined(arrive, 0)| && n >= |Picked((seen + Joined(arrive, 0))[..i], q)| > (if n > tail then n - tail else 0)
    ensures Reached(Picked(seen, q), n, tail) != []
  {
    hide Picked;
    assert Joined(arrive, 0) == [] && seen + [] == seen;
    PickedPrefix(seen, q, i);
  }

  // ---- With a start time ----

  function Boundary(pid: nat, start: nat): Item -> bool
  {
    (x: Item) => (pid == 0 || pid == x.pid) && start != EPOCH && start == x.realtime
  }

  /** With a start time, the first pass also counts entries stamped exactly then and the second does not. */
  lemma {:induction false} StartTimeShift(seen: seq<Item>, pid: nat, start: nat)
    ensures |Picked(seen, InFirst(pid, start))| == |Picked(seen, InSecond(pid, start))| + |Picked(seen, Boundary(pid, start))|
  {
    if seen != [] { StartTimeShift(seen[..|seen| - 1], pid, start); }
  }

  /** What TwoPasses accepts. */
  function Accepted(seen: seq<Item>, later: seq<Item>, pid: nat, start: nat, tail: nat): seq<Item>
  {
    Reached(Picked(seen + later, InSecond(pid, start)), |Picked(seen, InFirst(pid, start))|, tail)
  }

  /** Of everything the second pass meets: it counts to n, and skips all but the last `tail` of them. */
  function Reached(all: seq<Item>, n: nat, tail: nat): seq<Item>
  {
    all[Min(|all|, if n > tail then n - tail else 0)..Min(|all|, n)]
  }

  /** What a tail request asks for: the last entries of the first pass that are after the start time. */
  function Asked(seen: seq<Item>, pid: nat, start: nat, tail: nat): seq<Item>
  {
    var s := Picked(seen, InSecond(pid, start));
    s[|s| - Min(tail, |s|)..]
  }

  predicate Ascending(items: seq<Item>) { forall i, j :: 0 <= i < j < |items| ==> items[i].sequence < items[j].sequence }

  lemma {:induction false} PickedConcat(a: seq<Item>, b: seq<Item>, p: Item -> bool)
    ensures Picked(a + b, p) == Picked(a, p) + Picked(b, p)
  {
    if b == [] {
      assert a + b == a;
    } else {
      assert (a + b)[..|a + b| - 1] == a + b[..|b| - 1];
      PickedConcat(a, b[..|b| - 1], p);
    }
  }

  lemma {:induction false} PickedMembers(items: seq<Item>, p: Item -> bool)
    ensures forall x :: x in Picked(items, p) ==> x in items && p(x)
  {
    if items != [] {
      PickedMembers(items[..|items| - 1], p);
      assert items == items[..|items| - 1] + [items[|items| - 1]];
    }
  }

  /** Nothing appended later was there before. */
  lemma LaterIsNew(seen: seq<Item>, later: seq<Item>, p: Item -> bool, x: Item)
    requires Ascending(seen + later) && x in Picked(later, p)
    ensures x !in Picked(seen, p)
  {
    PickedMembers(seen, p);
    PickedMembers(later, p);
    var j :| 0 <= j < |later| && later[j] == x;
    forall i | 0 <= i < |seen| ensures seen[i] != x {
      assert (seen + later)[i].sequence < (seen + later)[|seen| + j].sequence;
    }
  }

  /** The lock is held until an entry is written, so nothing comes in if the second pass would write none. */
  predicate CanArrive(seen: seq<Item>, later: seq<Item>, pid: nat, start: nat, tail: nat)
  {
    later != [] ==> Accepted(seen, [], pid, start, tail) != []
  }

  /** Of s entries after the start time, b stamped exactly then and l appended later, a tail of this length gets what it asks for. */
  predicate GetsAsked(s: nat, b: nat, l: nat, tail: nat)
  {
    b == 0 || s == 0 || (l == 0 && s + b <= tail)
  }

  lemma ReachedIff(s: seq<Item>, more: seq<Item>, b: nat, tail: nat)
    requires tail > 0 && (forall x :: x in more ==> x !in s) && (more != [] ==> Reached(s, |s| + b, tail) != [])
    ensures Reached(s + more, |s| + b, tail) == s[|s| - Min(tail, |s|)..] <==> GetsAsked(|s|, b, |more|, tail)
  {
    var all, n, asked := s + more, |s| + b, s[|s| - Min(tail, |s|)..];
    var lo, hi := Min(|all|, if n > tail then n - tail else 0), Min(|all|, n);
    var r := all[lo..hi];
    if lo < hi && hi > |s| {
      var x := more[hi - 1 - |s|];
      assert r[|r| - 1] == all[hi - 1] == x && x in more;
      assert |asked| > 0 ==> asked[|asked| - 1] == s[|s| - 1] && s[|s| - 1] in s;
    } else if lo < hi {
      assert hi == |s|;
      forall k | 0 <= k < hi - lo ensures r[k] == s[lo + k] { }
      assert r == s[lo..];
      if |r| == |asked| { assert lo == |s| - Min(tail, |s|); }
    } else {
      assert r == [];
    }
  }

  /**
   Exactly when a tail request with a start time is served right: no entry is stamped at that very time, or
   none is after it, or the tail is long enough for all of them and no further one is appended meanwhile.
   */
  lemma TailIff(seen: seq<Item>, later: seq<Item>, pid: nat, start: nat, tail: nat)
    requires tail > 0 && Ascending(seen + later) && CanArrive(seen, later, pid, start, tail)
    ensures Accepted(seen, later, pid, start, tail) == Asked(seen, pid, start, tail) <==>
      GetsAsked(|Picked(seen, InSecond(pid, start))|, |Picked(seen, Boundary(pid, start))|, |Picked(later, InSecond(pid, start))|, tail)
  {
    hide Picked, Reached, GetsAsked;
    var q := InSecond(pid, start);
    var s, more, b := Picked(seen, q), Picked(later, q), |Picked(seen, Boundary(pid, start))|;
    StartTimeShift(seen, pid, start);
    PickedConcat(seen, later, q);
    assert seen + [] == seen;
    forall x | x in more ensures x !in s { LaterIsNew(seen, later, q, x); }
    ReachedIff(s, more, b, tail);
  }

  /**
   Whatever is appended meanwhile, a tail request is served right if and only if no matching entry is stamped
   at its start time or none is after it.
   */
  lemma AlwaysRightIff(seen: seq<Item>, pid: nat, start: nat, tail: nat)
    requires tail > 0 && Ascending(seen)
    ensures
      (forall later :: Ascending(seen + later) && CanArrive(seen, later, pid, start, tail) ==>
        Accepted(seen, later, pid, start, tail) == Asked(seen, pid, start, tail))
      <==> Picked(seen, Boundary(pid, start)) == [] || Picked(seen, InSecond(pid, start)) == []
  {
    hide Picked, Accepted, Asked;
    var b, s := |Picked(seen, Boundary(pid, start))|, |Picked(seen, InSecond(pid, start))|;
    forall later | Ascending(seen + later) && CanArrive(seen, later, pid, start, tail) && (b == 0 || s == 0)
      ensures Accepted(seen, later, pid, start, tail) == Asked(seen, pid, start, tail)
    {
      TailIff(seen, later, pid, start, tail);
    }
    if b > 0 && s > 0 {
      var later := if Accepted(seen, [], pid, start, tail) == [] then [] else [OneMore(seen, pid, start)];
      OneMorePicked(seen, pid, start);
      assert Ascending(seen + later) && seen + [] == seen;
      if later == [] { MissesAll(seen, pid, start, tail); } else { TailIff(seen, later, pid, start, tail); }
      assert Accepted(seen, later, pid, start, tail) != Asked(seen, pid, start, tail);
    }
  }

  /** An entry appended after these, stamped after the start time. */
  function OneMore(seen: seq<Item>, pid: nat, start: nat): Item
  {
    Item(0, pid, if seen == [] then 0 else seen[|seen| - 1].sequence + 1, start + 1)
  }

  lemma OneMorePicked(seen: seq<Item>, pid: nat, start: nat)
    ensures var x := OneMore(seen, pid, start); Picked([x], InSecond(pid, start)) == [x]
  {
    var x := OneMore(seen, pid, start);
    assert [x][..0] == [];
  }

  /** A pass that sends nothing although there is something after the start time. */
  lemma MissesAll(seen: seq<Item>, pid: nat, start: nat, tail: nat)
    requires tail > 0 && Accepted(seen, [], pid, start, tail) == [] && Picked(seen, InSecond(pid, start)) != []
    ensures Accepted(seen, [], pid, start, tail) != Asked(seen, pid, start, tail)
  {
  }

  /** Entries stamped 5 and 6 are there; one stamped 7 comes in while the first is written, if any is. */
  method Since5(tail: nat) returns (accepted: seq<Item>)
    requires tail > 0
    ensures accepted == if tail == 1 then [] else [Item(0, 1, 2, 6), Item(0, 1, 3, 7)]
    ensures Asked([Item(0, 1, 1, 5), Item(0, 1, 2, 6)], 0, 5, tail) == [Item(0, 1, 2, 6)]
  {
    var seen, later := [Item(0, 1, 1, 5), Item(0, 1, 2, 6)], [Item(0, 1, 3, 7)];
    ghost var q, f := InSecond(0, 5), InFirst(0, 5);
    assert seen[..1] == [seen[0]] && [seen[0]][..0] == [];
    assert Picked([seen[0]], f) == [seen[0]] && Picked([seen[0]], q) == [];
    assert Picked(seen, f) == seen && Picked(seen, q) == [seen[1]];
    assert (seen + later)[..2] == seen && seen + [] == seen;
    assert Picked(seen + later, q) == [seen[1]] + later;
    var reader := new LogReaderThread(0, true, tail, 5);
    if tail == 1 {
      accepted := reader.TwoPassesWith(seen, []);
    } else {
      accepted := reader.TwoPassesWith(seen, later);
    }
  }

  /** One entry stamped exactly at the start time, a request for the last since then: whatever comes later, nothing is ever sent. */
  method NeverServed(more: seq<Wake>) returns (accepted: seq<Item>)
    ensures accepted == []
  {
    var first := Wake([Item(0, 1, 1, 5)], []);
    var reader := new LogReaderThread(0, false, 1, 5);
    assert first.seen[..0] == [];
    assert Picked(first.seen, Boundary(0, 5)) == [Item(0, 1, 1, 5)];
    ghost var got;
    accepted, got := reader.Follow([first] + more);
  }
}
