/**
 Files kept in the pmsg log: the writer cuts a file into numbered pieces, preferably at line ends, and
 the reader puts together whatever pieces are found, in whatever order they come.
 */
module PmsgFiles {
  import opened Bytes
  import opened EntryLayout

  const NEWLINE: byte := 10
  const FORM_FEED: byte := 12
  const FILE_SEQUENCE := 1000        // ANDROID_LOG_PMSG_FILE_SEQUENCE
  const MAX_SEQUENCE := 256          // ANDROID_LOG_PMSG_FILE_MAX_SEQUENCE

  function Flatten(pieces: seq<seq<byte>>): seq<byte>
  {
    if pieces == [] then [] else Flatten(pieces[..|pieces| - 1]) + pieces[|pieces| - 1]
  }

  lemma FlattenSnoc(pieces: seq<seq<byte>>, p: seq<byte>)
    ensures Flatten(pieces + [p]) == Flatten(pieces) + p
  {
    assert (pieces + [p])[..|pieces|] == pieces;
  }

  lemma NoPieces()
    ensures Flatten([]) == []
  {
  }

  // ---- Writing ----

  /** strnrchr: the last `c` among the first `len` bytes, not looking at the very first; `len` if there is none. */
  method Strnrchr(buf: seq<byte>, len: nat, c: byte) returns (at: nat)
    requires len <= |buf|
    ensures at <= len
    ensures at < len ==> 0 < at && buf[at] == c
    ensures forall i :: at < i < len ==> buf[i] != c
    ensures at == len ==> forall i :: 0 < i < len ==> buf[i] != c
  {
    var cp: int := len - 1;
    while cp > 0 && buf[cp] != c
      invariant cp <= len - 1
      invariant forall i :: 0 < i < len && cp < i ==> buf[i] != c
    {
      cp := cp - 1;
    }
    return if cp <= 0 then len else cp;
  }

  /**
   A piece of t bytes of `rest`: all of it if that fits, or up to the last line end before the last byte of
   room and past the first, or else all but one byte of the room, unless the line end is that very byte.
   */
  ghost predicate CutAt(rest: seq<byte>, packetLen: nat, t: nat)
    requires packetLen >= 1
  {
    && rest != [] && t <= |rest|
    && if |rest| <= packetLen then t == |rest|
       else if exists k :: 0 < k < packetLen - 1 && rest[k] == NEWLINE then
         1 < t < packetLen && rest[t - 1] == NEWLINE && forall k :: t <= k < packetLen - 1 ==> rest[k] != NEWLINE
       else t == if rest[packetLen - 1] == NEWLINE then packetLen else packetLen - 1
  }

  /** How much of `buf` goes into the next piece: nothing exactly if there is room for one byte only and no line end to cut at. */
  method NextTransfer(buf: seq<byte>, packetLen: nat) returns (transfer: nat)
    requires buf != [] && packetLen >= 1
    ensures transfer <= |buf| && transfer <= packetLen && CutAt(buf, packetLen, transfer)
    ensures transfer == 0 <==> packetLen == 1 && |buf| > 1 && buf[0] != NEWLINE
  {
    transfer := |buf|;
    if transfer > packetLen {
      transfer := Strnrchr(buf, packetLen - 1, NEWLINE);
      if transfer < |buf| && buf[transfer] == NEWLINE {
        transfer := transfer + 1;
      }
    }
  }

  /** Once a piece is empty, all further ones are. */
  predicate Settled(pieces: seq<seq<byte>>) { forall i, j :: 0 <= i < j < |pieces| && pieces[i] == [] ==> pieces[j] == [] }

  /** The pieces of buf one after another, each cut where it should be and taken. */
  ghost predicate PiecesOf(buf: seq<byte>, pieces: seq<seq<byte>>, packetLen: nat, write: nat -> int)
    requires packetLen >= 1
  {
    |pieces| <= MAX_SEQUENCE && forall i :: 0 <= i < |pieces| ==> PieceOf(buf, Flatten(pieces[..i]), pieces[i], packetLen) && write(i) > 0
  }

  /** The piece that comes after what is written. */
  ghost predicate PieceOf(buf: seq<byte>, written: seq<byte>, piece: seq<byte>, packetLen: nat)
    requires packetLen >= 1
  {
    written + piece <= buf && CutAt(buf[|written|..], packetLen, |piece|)
  }

  /** What holds of the pieces written before `rest`. */
  ghost predicate Written(buf: seq<byte>, pieces: seq<seq<byte>>, rest: seq<byte>, packetLen: nat, write: nat -> int)
    requires packetLen >= 1
  {
    && buf == Flatten(pieces) + rest && PiecesOf(buf, pieces, packetLen, write) && Settled(pieces)
    && forall i :: 0 <= i < |pieces| && pieces[i] == [] ==> packetLen == 1 && |rest| > 1 && rest[0] != NEWLINE
  }

  lemma NoneWritten(buf: seq<byte>, packetLen: nat, write: nat -> int)
    requires packetLen >= 1
    ensures Written(buf, [], buf, packetLen, write)
  {
  }

  lemma WrittenNext(buf: seq<byte>, pieces: seq<seq<byte>>, rest: seq<byte>, packetLen: nat, write: nat -> int, transfer: nat)
    requires packetLen >= 1 && Written(buf, pieces, rest, packetLen, write) && |pieces| < MAX_SEQUENCE && write(|pieces|) > 0
    requires transfer <= |rest| && CutAt(rest, packetLen, transfer) && (transfer == 0 <==> packetLen == 1 && |rest| > 1 && rest[0] != NEWLINE)
    ensures Written(buf, pieces + [rest[..transfer]], rest[transfer..], packetLen, write)
  {
    hide Flatten, CutAt;
    var piece := rest[..transfer];
    var more := pieces + [piece];
    FlattenSnoc(pieces, piece);
    assert rest == piece + rest[transfer..] && buf[|Flatten(pieces)|..] == rest;
    assert more[..|pieces|] == pieces && forall i :: 0 <= i < |pieces| ==> more[..i] == pieces[..i];
    assert transfer == 0 ==> rest[transfer..] == rest;
  }

  /**
   __android_log_pmsg_file_write: pieces 0, 1, 2, ... of the file, at most 256, as long as `write` takes
   them. What it reports having written is exactly what the pieces hold. A tag that leaves room for a single
   byte makes it write empty pieces from the first byte on that is not a line end.
   */
  method WriteFile(buf: seq<byte>, packetLen: nat, write: nat -> int) returns (ret: int, pieces: seq<seq<byte>>)
    requires packetLen >= 1
    ensures |pieces| <= MAX_SEQUENCE && PiecesOf(buf, pieces, packetLen, write) && Flatten(pieces) <= buf && Settled(pieces)
    ensures ret >= 0 ==> ret == |Flatten(pieces)|
    ensures Flatten(pieces) == buf || |pieces| == MAX_SEQUENCE || (write(|pieces|) <= 0 && (ret < 0 ==> ret == write(|pieces|)))
    ensures ret < 0 ==> Flatten(pieces) != buf && |pieces| < MAX_SEQUENCE
  {
    hide Flatten, CutAt, PieceOf, Settled;
    pieces := [];
    var rest := buf;
    NoneWritten(buf, packetLen, write);
    while rest != []
      invariant Written(buf, pieces, rest, packetLen, write)
      decreases MAX_SEQUENCE + 1 - |pieces|
    {
      if |pieces| >= MAX_SEQUENCE {
        return |buf| - |rest|, pieces;
      }
      var transfer := NextTransfer(rest, packetLen);
      var ret0 := write(|pieces|);
      if ret0 <= 0 {
        return if ret0 != 0 then ret0 else |buf| - |rest|, pieces;
      }
      WrittenNext(buf, pieces, rest, packetLen, write, transfer);
      pieces := pieces + [rest[..transfer]];
      rest := rest[transfer..];
    }
    ret := |buf|;
  }

  // ---- Reading ----

  datatype FileKey = FileKey(name: seq<byte>, id: nat, prio: byte)
  datatype Message = Message(key: FileKey, nsec: nat, data: seq<byte>)
  datatype Fragment = Fragment(nsec: nat, data: seq<byte>)

  predicate Ascending(fs: seq<Fragment>) { forall i, j :: 0 <= i < j < |fs| ==> fs[i].nsec < fs[j].nsec }

  /** The fragments as a table from time stamp to content. */
  function Table(fs: seq<Fragment>): map<nat, seq<byte>>
  {
    if fs == [] then map[] else Table(fs[..|fs| - 1])[fs[|fs| - 1].nsec := fs[|fs| - 1].data]
  }

  lemma {:induction false} TableIn(fs: seq<Fragment>, k: nat)
    requires k in Table(fs)
    ensures Fragment(k, Table(fs)[k]) in fs
  {
    var n := |fs| - 1;
    if fs[n].nsec != k { TableIn(fs[..n], k); }
  }

  lemma {:induction false} TableHas(fs: seq<Fragment>, g: Fragment)
    requires Ascending(fs) && g in fs
    ensures g.nsec in Table(fs) && Table(fs)[g.nsec] == g.data
  {
    var n := |fs| - 1;
    if fs[n] != g {
      assert fs == fs[..n] + [fs[n]];
      TableHas(fs[..n], g);
    }
  }

  /** Removes the fragment with the same number, if there is one, and puts the new one in its place in the order. */
  method Insert(fs: seq<Fragment>, f: Fragment) returns (r: seq<Fragment>)
    requires Ascending(fs)
    ensures Ascending(r) && Table(r) == Table(fs)[f.nsec := f.data]
  {
    r := fs;
    var i := 0;
    while i < |r|
      invariant i <= |r| && Ascending(r)
      invariant forall g :: g in r <==> g in fs && (g.nsec != f.nsec || g in r[i..])
      invariant forall k :: 0 <= k < i ==> r[k].nsec != f.nsec
      decreases |r| - i
    {
      if r[i].nsec == f.nsec {
        RemoveOne(r, i);
        r := r[..i] + r[i + 1..];
      } else {
        i := i + 1;
      }
    }
    var at := |r|;
    while at > 0 && r[at - 1].nsec >= f.nsec
      invariant 0 <= at <= |r|
      invariant forall k :: at <= k < |r| ==> r[k].nsec > f.nsec
    {
      assert r[at - 1].nsec != f.nsec;
      at := at - 1;
    }
    ghost var without := r;
    r := r[..at] + [f] + r[at..];
    InsertedTable(fs, without, at, f);
  }

  lemma RemoveOne(r: seq<Fragment>, i: nat)
    requires i < |r| && Ascending(r)
    ensures Ascending(r[..i] + r[i + 1..])
    ensures forall g :: g in r[..i] + r[i + 1..] <==> g in r && g.nsec != r[i].nsec
  {
    var s := r[..i] + r[i + 1..];
    assert forall k :: 0 <= k < |s| ==> s[k] == r[if k < i then k else k + 1];
    forall g | g in r && g.nsec != r[i].nsec ensures g in s {
      var k :| 0 <= k < |r| && r[k] == g;
      assert s[if k < i then k else k - 1] == g;
    }
  }

  lemma InsertedTable(fs: seq<Fragment>, without: seq<Fragment>, at: nat, f: Fragment)
    requires Ascending(fs) && Ascending(without) && at <= |without|
    requires forall g :: g in without <==> g in fs && g.nsec != f.nsec
    requires forall k :: at <= k < |without| ==> without[k].nsec > f.nsec
    requires at > 0 ==> without[at - 1].nsec < f.nsec
    ensures var r := without[..at] + [f] + without[at..]; Ascending(r) && Table(r) == Table(fs)[f.nsec := f.data]
  {
    hide Table;
    var r := without[..at] + [f] + without[at..];
    forall i, j | 0 <= i < j < |r| ensures r[i].nsec < r[j].nsec {
      if i < at && at > 0 { assert i == at - 1 || without[i].nsec < without[at - 1].nsec; }
    }
    forall g ensures g in r <==> g == f || (g in fs && g.nsec != f.nsec) {
      assert g in r <==> g in without[..at] || g == f || g in without[at..];
      assert without == without[..at] + without[at..];
      assert g in without <==> g in without[..at] || g in without[at..];
    }
    SameTable(fs, r, f);
  }

  /** Exactly the fragments of `fs` with another number, and f. */
  lemma SameTable(fs: seq<Fragment>, r: seq<Fragment>, f: Fragment)
    requires Ascending(fs) && Ascending(r)
    requires forall g :: g in r <==> g == f || (g in fs && g.nsec != f.nsec)
    ensures Table(r) == Table(fs)[f.nsec := f.data]
  {
    hide Table, Ascending;
    var want := Table(fs)[f.nsec := f.data];
    forall k | k in Table(r) ensures k in want && Table(r)[k] == want[k] {
      TableIn(r, k);
      if k != f.nsec { TableHas(fs, Fragment(k, Table(r)[k])); }
    }
    forall k | k in want ensures k in Table(r) {
      if k == f.nsec {
        TableHas(r, f);
      } else {
        TableIn(fs, k);
        TableHas(r, Fragment(k, Table(fs)[k]));
      }
    }
  }

  /** A message the reader keeps: it passes the caller's filters and carries a piece number. */
  predicate Accepted(m: Message, wanted: Message -> bool)
  {
    wanted(m) && m.nsec % FILE_SEQUENCE == 0 && m.nsec / FILE_SEQUENCE < MAX_SEQUENCE
  }

  /** For each number the content that came last. */
  function Latest(msgs: seq<Message>, wanted: Message -> bool, key: FileKey): map<nat, seq<byte>>
  {
    if msgs == [] then map[]
    else
      var m, before := msgs[|msgs| - 1], Latest(msgs[..|msgs| - 1], wanted, key);
      if m.key == key && Accepted(m, wanted) then before[m.nsec := m.data] else before
  }

  /** Sorts every accepted message into its file: what is kept is the latest of each piece, in order. */
  method Collect(msgs: seq<Message>, wanted: Message -> bool) returns (files: map<FileKey, seq<Fragment>>)
    ensures forall key :: key in files ==> Ascending(files[key]) && Table(files[key]) == Latest(msgs, wanted, key)
    ensures forall key :: key !in files ==> Latest(msgs, wanted, key) == map[]
  {
    hide Ascending, Table;
    files := map[];
    for i := 0 to |msgs|
      invariant forall key :: key in files ==> Ascending(files[key]) && Table(files[key]) == Latest(msgs[..i], wanted, key)
      invariant forall key :: key !in files ==> Latest(msgs[..i], wanted, key) == map[]
    {
      var m := msgs[i];
      assert msgs[..i + 1][..i] == msgs[..i];
      if wanted(m) && m.nsec % FILE_SEQUENCE == 0 && m.nsec / FILE_SEQUENCE < MAX_SEQUENCE {
        NoFragments();
        var content := Insert(if m.key in files then files[m.key] else [], Fragment(m.nsec, m.data));
        files := files[m.key := content];
      }
    }
    assert msgs[..|msgs|] == msgs;
  }

  lemma NoFragments()
    ensures Ascending([]) && Table([]) == map[]
  {
  }

  /** Piece k is there and not empty. */
  predicate Filled(m: map<nat, seq<byte>>, k: nat) { FILE_SEQUENCE * k in m && m[FILE_SEQUENCE * k] != [] }

  /** The first n pieces, with a form feed for each one missing. */
  function Rebuilt(m: map<nat, seq<byte>>, n: nat): seq<byte>
  {
    if n == 0 then [] else Rebuilt(m, n - 1) + if Filled(m, n - 1) then m[FILE_SEQUENCE * (n - 1)] else [FORM_FEED]
  }

  /** n is one more than the number of the last piece there is. */
  ghost predicate Through(m: map<nat, seq<byte>>, n: nat)
  {
    (n > 0 ==> Filled(m, n - 1)) && forall k :: k >= n ==> !Filled(m, k)
  }

  /** Puts the pieces of one file together in order, marking gaps. */
  method Assemble(fs: seq<Fragment>) returns (buf: seq<byte>, ghost n: nat)
    requires Ascending(fs) && forall i :: 0 <= i < |fs| ==> fs[i].nsec % FILE_SEQUENCE == 0
    ensures buf == Rebuilt(Table(fs), n) && Through(Table(fs), n)
    ensures forall k :: Through(Table(fs), k) ==> buf == Rebuilt(Table(fs), k)
  {
    hide Table, Rebuilt, Filled, Ascending;
    ghost var m := Table(fs);
    buf, n := [], 0;
    NothingRebuilt(m);
    var sequence := 0;
    for i := 0 to |fs|
      invariant sequence == FILE_SEQUENCE * n && buf == Rebuilt(m, n)
      invariant n > 0 ==> Filled(m, n - 1)
      invariant forall k :: 0 <= k < i && fs[k].data != [] ==> fs[k].nsec < sequence
      invariant i < |fs| ==> sequence <= fs[i].nsec
    {
      var f := fs[i];
      OrderAt(fs, i);
      if f.data == [] {
        continue;
      }
      ghost var number := f.nsec / FILE_SEQUENCE;
      assert f in fs;
      TableHas(fs, f);
      assert FILE_SEQUENCE * number == f.nsec;
      while sequence < f.nsec
        invariant sequence == FILE_SEQUENCE * n && n <= number && buf == Rebuilt(m, n)
        invariant forall k :: 0 <= k < i && fs[k].data != [] ==> fs[k].nsec < sequence
        decreases f.nsec - sequence
      {
        GapAt(fs, i, n);
        RebuildGap(m, n);
        buf := buf + [FORM_FEED];
        sequence := sequence + FILE_SEQUENCE;
        n := n + 1;
      }
      RebuildPiece(m, n, f.data);
      buf := buf + f.data;
      sequence := f.nsec + FILE_SEQUENCE;
      n := n + 1;
    }
    forall k | k >= n ensures !Filled(m, k) { NoneBeyond(fs, n, k); }
  }

  lemma NothingRebuilt(m: map<nat, seq<byte>>)
    ensures Rebuilt(m, 0) == []
  {
  }

  lemma RebuildGap(m: map<nat, seq<byte>>, n: nat)
    requires !Filled(m, n)
    ensures Rebuilt(m, n + 1) == Rebuilt(m, n) + [FORM_FEED]
  {
  }

  lemma RebuildPiece(m: map<nat, seq<byte>>, n: nat, data: seq<byte>)
    requires FILE_SEQUENCE * n in m && m[FILE_SEQUENCE * n] == data != []
    ensures Rebuilt(m, n + 1) == Rebuilt(m, n) + data && Filled(m, n)
  {
  }

  lemma OrderAt(fs: seq<Fragment>, i: nat)
    requires Ascending(fs) && i < |fs| && forall k :: 0 <= k < |fs| ==> fs[k].nsec % FILE_SEQUENCE == 0
    ensures i + 1 < |fs| ==> fs[i].nsec + FILE_SEQUENCE <= fs[i + 1].nsec
  {
    if i + 1 < |fs| { assert fs[i].nsec < fs[i + 1].nsec; }
  }

  /** Nothing lies between the pieces before fragment i and that fragment. */
  lemma GapAt(fs: seq<Fragment>, i: nat, n: nat)
    requires Ascending(fs) && i < |fs| && FILE_SEQUENCE * n < fs[i].nsec
    requires forall k :: 0 <= k < i && fs[k].data != [] ==> fs[k].nsec < FILE_SEQUENCE * n
    ensures !Filled(Table(fs), n)
  {
    assert forall j :: 0 <= j < |fs| && fs[j].nsec == FILE_SEQUENCE * n ==> fs[j].data == [];
    if Filled(Table(fs), n) { TableIn(fs, FILE_SEQUENCE * n); }
  }

  lemma NoneBeyond(fs: seq<Fragment>, n: nat, k: nat)
    requires k >= n && forall i :: 0 <= i < |fs| && fs[i].data != [] ==> fs[i].nsec < FILE_SEQUENCE * n
    ensures !Filled(Table(fs), k)
  {
    if Filled(Table(fs), k) {
      TableIn(fs, FILE_SEQUENCE * k);
    }
  }

  // ---- Round trip ----

  /** The messages for these pieces of a file, whichever arrive. */
  predicate Carries(m: Message, key: FileKey, pieces: seq<seq<byte>>)
  {
    m.key == key ==> m.nsec % FILE_SEQUENCE == 0 && m.nsec / FILE_SEQUENCE < |pieces| && m.data == pieces[m.nsec / FILE_SEQUENCE]
  }

  lemma {:induction false} LatestIsPiece(msgs: seq<Message>, wanted: Message -> bool, key: FileKey, pieces: seq<seq<byte>>, k: nat)
    requires forall i :: 0 <= i < |msgs| && Accepted(msgs[i], wanted) ==> Carries(msgs[i], key, pieces)
    requires FILE_SEQUENCE * k in Latest(msgs, wanted, key)
    ensures k < |pieces| && Latest(msgs, wanted, key)[FILE_SEQUENCE * k] == pieces[k]
  {
    var n := |msgs| - 1;
    var m := msgs[n];
    if !(m.key == key && Accepted(m, wanted) && m.nsec == FILE_SEQUENCE * k) {
      LatestIsPiece(msgs[..n], wanted, key, pieces, k);
    }
  }

  lemma {:induction false} LatestHas(msgs: seq<Message>, wanted: Message -> bool, key: FileKey, i: nat)
    requires i < |msgs| && msgs[i].key == key && Accepted(msgs[i], wanted)
    ensures msgs[i].nsec in Latest(msgs, wanted, key)
  {
    var n := |msgs| - 1;
    if i < n { LatestHas(msgs[..n], wanted, key, i); }
  }

  /** Piece k is among the messages. */
  predicate Arrives(msgs: seq<Message>, wanted: Message -> bool, key: FileKey, k: nat)
  {
    exists i :: 0 <= i < |msgs| && msgs[i].key == key && msgs[i].nsec == FILE_SEQUENCE * k && Accepted(msgs[i], wanted)
  }

  lemma ArrivedPiece(msgs: seq<Message>, wanted: Message -> bool, key: FileKey, pieces: seq<seq<byte>>, k: nat)
    requires forall i :: 0 <= i < |msgs| && Accepted(msgs[i], wanted) ==> Carries(msgs[i], key, pieces)
    requires Arrives(msgs, wanted, key, k) && k < |pieces| && pieces[k] != []
    ensures var m := Latest(msgs, wanted, key); Filled(m, k) && m[FILE_SEQUENCE * k] == pieces[k]
  {
    hide Latest, Carries;
    var i :| 0 <= i < |msgs| && msgs[i].key == key && msgs[i].nsec == FILE_SEQUENCE * k && Accepted(msgs[i], wanted);
    LatestHas(msgs, wanted, key, i);
    LatestIsPiece(msgs, wanted, key, pieces, k);
  }

  lemma {:induction false} RebuiltPieces(m: map<nat, seq<byte>>, pieces: seq<seq<byte>>, n: nat)
    requires n <= |pieces| && forall k :: 0 <= k < n ==> Filled(m, k) && m[FILE_SEQUENCE * k] == pieces[k]
    ensures Rebuilt(m, n) == Flatten(pieces[..n])
  {
    if n > 0 {
      assert pieces[..n][..n - 1] == pieces[..n - 1];
      assert Filled(m, n - 1);
      RebuiltPieces(m, pieces, n - 1);
    }
  }

  /** How many pieces come before the first empty one. */
  function Lead(pieces: seq<seq<byte>>): (n: nat)
    ensures n <= |pieces| && (forall i :: 0 <= i < n ==> pieces[i] != []) && (n < |pieces| ==> pieces[n] == [])
  {
    if pieces == [] || pieces[0] == [] then 0 else 1 + Lead(pieces[1..])
  }

  lemma {:induction false} TrailingEmpty(pieces: seq<seq<byte>>, n: nat)
    requires n <= |pieces| && forall i :: n <= i < |pieces| ==> pieces[i] == []
    ensures Flatten(pieces) == Flatten(pieces[..n])
  {
    if n < |pieces| {
      TrailingEmpty(pieces[..|pieces| - 1], n);
      assert pieces[..|pieces| - 1][..n] == pieces[..n];
    } else {
      assert pieces[..n] == pieces;
    }
  }

  /**
   A file written, its pieces arriving in any order and any number of times among those of other files:
   if none is missing, what is read back is exactly what was reported as written.
   */
  method ReadBack(msgs: seq<Message>, wanted: Message -> bool, key: FileKey, pieces: seq<seq<byte>>) returns (content: seq<byte>)
    requires Settled(pieces)
    requires forall i :: 0 <= i < |msgs| && Accepted(msgs[i], wanted) ==> Carries(msgs[i], key, pieces)
    requires forall k :: 0 <= k < |pieces| ==> Arrives(msgs, wanted, key, k)
    ensures content == Flatten(pieces)
  {
    hide Rebuilt, Latest, Ascending, Table, Arrives, Accepted, Carries;
    var files := Collect(msgs, wanted);
    ghost var m, n := Latest(msgs, wanted, key), Lead(pieces);
    forall k | 0 <= k < n ensures Filled(m, k) && m[FILE_SEQUENCE * k] == pieces[k] {
      ArrivedPiece(msgs, wanted, key, pieces, k);
    }
    forall k | k >= n ensures !Filled(m, k) {
      if FILE_SEQUENCE * k in m { LatestIsPiece(msgs, wanted, key, pieces, k); }
    }
    NoFragments();
    var fs := if key in files then files[key] else [];
    WholeNumbers(msgs, wanted, key, fs);
    ghost var top;
    content, top := Assemble(fs);
    assert top == n by { SameTop(m, top, n); }
    RebuiltPieces(m, pieces, n);
    TrailingEmpty(pieces, n);
  }

  lemma SameTop(m: map<nat, seq<byte>>, a: nat, b: nat)
    requires Through(m, a) && Through(m, b)
    ensures a == b
  {
  }

  /**
   Writing and reading together: `arrive` says which messages the reader finds, in whatever order and however
   often, for the pieces written. As long as every piece is among them, the file reads back as what was
   written, which is the whole content unless a write failed or it took more than 256 pieces.
   */
  method WriteAndRead(buf: seq<byte>, packetLen: nat, write: nat -> int, key: FileKey, wanted: Message -> bool,
                      arrive: seq<seq<byte>> -> seq<Message>) returns (ret: int, content: seq<byte>, pieces: seq<seq<byte>>)
    requires packetLen >= 1
    requires forall ps, i :: |ps| <= MAX_SEQUENCE && 0 <= i < |arrive(ps)| && Accepted(arrive(ps)[i], wanted) ==> Carries(arrive(ps)[i], key, ps)
    requires forall ps, k :: |ps| <= MAX_SEQUENCE && 0 <= k < |ps| ==> Arrives(arrive(ps), wanted, key, k)
    ensures PiecesOf(buf, pieces, packetLen, write) && content == Flatten(pieces)
    ensures content <= buf && (ret < 0 ==> content != buf) && (ret >= 0 ==> ret <= |buf| && content == buf[..ret])
    ensures content == buf || |pieces| == MAX_SEQUENCE || (write(|pieces|) <= 0 && (ret < 0 ==> ret == write(|pieces|)))
  {
    hide Flatten, PiecesOf, Arrives, Accepted, Carries;
    ret, pieces := WriteFile(buf, packetLen, write);
    content := ReadBack(arrive(pieces), wanted, key, pieces);
  }

  lemma WholeNumbers(msgs: seq<Message>, wanted: Message -> bool, key: FileKey, fs: seq<Fragment>)
    requires Ascending(fs) && Table(fs) == Latest(msgs, wanted, key)
    ensures forall i :: 0 <= i < |fs| ==> fs[i].nsec % FILE_SEQUENCE == 0
  {
    forall i | 0 <= i < |fs| ensures fs[i].nsec % FILE_SEQUENCE == 0 {
      assert fs[i] in fs;
      TableHas(fs, fs[i]);
      LatestWhole(msgs, wanted, key, fs[i].nsec);
    }
  }

  lemma {:induction false} LatestWhole(msgs: seq<Message>, wanted: Message -> bool, key: FileKey, x: nat)
    requires x in Latest(msgs, wanted, key)
    ensures x % FILE_SEQUENCE == 0
  {
    var n := |msgs| - 1;
    if x in Latest(msgs[..n], wanted, key) { LatestWhole(msgs[..n], wanted, key, x); }
  }
}
