/** The byte ring with a truncate position (muggle/c/memory/bytes_buffer.c).  The layout
    arithmetic is a set of functions on the ring's value; the operations are methods of an
    object that copies bytes and moves w, r and t in place. */
module BytesBuffer {
  import opened Options

  type Byte = bv8

  datatype Ring = Ring(buf: seq<Byte>, w: nat, r: nat, t: nat)

  // ---------------------------------------------------------------- layout arithmetic

  function ContiguousWritable(b: Ring): int {
    if b.w >= b.r then
      if b.r != 0 then |b.buf| - b.w else |b.buf| - b.w - 1
    else b.r - b.w - 1
  }

  function JumpWritable(b: Ring): int {
    if b.w >= b.r && b.r != 0 then b.r - 1 else 0
  }

  function ContiguousReadable(b: Ring): int {
    if b.w >= b.r then b.w - b.r else b.t - b.r
  }

  function JumpReadable(b: Ring): int {
    if b.w >= b.r then 0 else b.w
  }

  function Writable(b: Ring): int { ContiguousWritable(b) + JumpWritable(b) }

  function Readable(b: Ring): int { ContiguousReadable(b) + JumpReadable(b) }

  // Either the bytes lie in one piece from r to w, or from r to t and then from 0 to w.  An
  // empty ring in one piece is back at its start.
  predicate WellFormed(b: Ring) {
    && 0 < b.t <= |b.buf|
    && (b.w >= b.r ==> b.w < |b.buf| && b.w <= b.t && (b.r == b.w ==> b.r == 0 && b.t == |b.buf|))
    && (b.w < b.r ==> b.r <= b.t)
  }

  // Where the unread byte number i lies.
  function Pos(b: Ring, i: nat): int { if b.w >= b.r || b.r + i < b.t then b.r + i else b.r + i - b.t }

  // The unread bytes, oldest first.
  function Contents(b: Ring): (s: seq<Byte>)
    requires WellFormed(b)
    ensures |s| == Readable(b)
    ensures forall i :: 0 <= i < |s| ==> 0 <= Pos(b, i) < |b.buf| && s[i] == b.buf[Pos(b, i)]
  {
    if b.w >= b.r then b.buf[b.r..b.w] else b.buf[b.r..b.t] + b.buf[..b.w]
  }

  /** The capacity is shared out between the unread bytes, the free ones, the gap behind the
      truncate position and one spare byte. */
  lemma SpaceIsShared(b: Ring)
    requires WellFormed(b)
    ensures Readable(b) == |Contents(b)| && 0 <= ContiguousWritable(b) && 0 <= JumpWritable(b)
    ensures Readable(b) + Writable(b) + 1 == if b.w >= b.r then |b.buf| else b.t
  {
  }

  // ---------------------------------------------------------------- writing

  // memcpy of src to position at.
  function Put(buf: seq<Byte>, at: nat, src: seq<Byte>): (s: seq<Byte>)
    requires at + |src| <= |buf|
    ensures |s| == |buf|
    ensures forall i :: 0 <= i < |s| ==> s[i] == if at <= i < at + |src| then src[i - at] else buf[i]
  {
    buf[..at] + src + buf[at + |src|..]
  }

  function Advance(b: Ring, n: nat): Ring {
    var w := b.w + n;
    var t := if b.t < w then |b.buf| else b.t;
    b.(t := t, w := if w == |b.buf| then 0 else w)
  }

  function Wrote(b: Ring, src: seq<Byte>): Ring
    requires WellFormed(b) && |src| <= Writable(b)
  {
    var cw := ContiguousWritable(b);
    if |src| <= cw then Advance(b.(buf := Put(b.buf, b.w, src)), |src|)
    else if |src| <= JumpWritable(b) then Ring(Put(b.buf, 0, src), |src|, b.r, b.w)
    else Ring(Put(Put(b.buf, b.w, src[..cw]), 0, src[cw..]), |src| - cw, b.r, |b.buf|)
  }

  lemma InPlaceAppends(b: Ring, src: seq<Byte>)
    requires WellFormed(b) && |src| <= ContiguousWritable(b)
    ensures b.w + |src| <= |b.buf|
    ensures var u := Advance(b.(buf := Put(b.buf, b.w, src)), |src|); WellFormed(u) && Contents(u) == Contents(b) + src
  {
    hide Put, Contents;
    var u, v := Contents(Advance(b.(buf := Put(b.buf, b.w, src)), |src|)), Contents(b) + src;
    assert |u| == |v|;
    forall i | 0 <= i < |u| ensures u[i] == v[i] {}
  }

  lemma JumpAppends(b: Ring, src: seq<Byte>)
    requires WellFormed(b) && |src| <= JumpWritable(b) && b.w >= b.r > 0
    ensures |src| <= |b.buf|
    ensures var u := Ring(Put(b.buf, 0, src), |src|, b.r, b.w); WellFormed(u) && Contents(u) == Contents(b) + src
  {
    hide Put, Contents;
    var u, v := Contents(Ring(Put(b.buf, 0, src), |src|, b.r, b.w)), Contents(b) + src;
    assert |u| == |v|;
    forall i | 0 <= i < |u| ensures u[i] == v[i] {}
  }

  lemma WrapAppends(b: Ring, src: seq<Byte>)
    requires WellFormed(b) && |src| <= Writable(b) && |src| > ContiguousWritable(b) && |src| > JumpWritable(b)
    ensures WellFormed(Wrote(b, src)) && Contents(Wrote(b, src)) == Contents(b) + src
  {
    hide Put, Contents;
    var u, v := Contents(Wrote(b, src)), Contents(b) + src;
    assert |u| == |v|;
    forall i | 0 <= i < |u| ensures u[i] == v[i] {}
  }

  /** Writing appends, whether in one piece, after a jump that truncates, or in two pieces. */
  lemma WriteAppends(b: Ring, src: seq<Byte>)
    requires WellFormed(b) && |src| <= Writable(b)
    ensures WellFormed(Wrote(b, src)) && Contents(Wrote(b, src)) == Contents(b) + src
  {
    hide Put, Contents;
    if |src| <= ContiguousWritable(b) {
      InPlaceAppends(b, src);
    } else if |src| <= JumpWritable(b) {
      JumpAppends(b, src);
    } else {
      WrapAppends(b, src);
    }
  }

  // ---------------------------------------------------------------- writing into reserved memory

  // Where writer_fc finds n bytes in a row.
  function Place(b: Ring, n: nat): Option<nat> {
    if n <= ContiguousWritable(b) then Some(b.w) else if n <= JumpWritable(b) then Some(0) else None
  }

  function Moved(b: Ring, at: nat, n: nat): Ring {
    if at == 0 then b.(t := if b.w > 0 then b.w else b.t, w := n) else Advance(b, n)
  }

  predicate Cleared(b: Ring) { b.r == b.w == 0 }

  // The n bytes from at on are the writer's: they follow the writer, or lie at the start
  // before the reader, or the ring has been cleared since they were found.
  predicate Reserved(b: Ring, at: nat, n: nat) {
    && n < |b.buf| && at + n <= |b.buf|
    && (Cleared(b) || (at == b.w && n <= ContiguousWritable(b)) || (at == 0 && b.w >= b.r > 0 && n <= JumpWritable(b)))
  }

  // The ring once the bytes src have been put behind the writer, and at the start.
  function WrittenBehind(b: Ring, src: seq<Byte>): Ring
    requires b.w + |src| <= |b.buf|
  {
    Advance(b.(buf := Put(b.buf, b.w, src)), |src|)
  }

  function WrittenAtStart(b: Ring, src: seq<Byte>): Ring
    requires |src| <= |b.buf|
  {
    Ring(Put(b.buf, 0, src), |src|, b.r, b.w)
  }

  // u is a ring with the contents of b and src behind them.
  ghost predicate Appended(b: Ring, src: seq<Byte>, u: Ring)
    requires WellFormed(b)
  {
    WellFormed(u) && Contents(u) == Contents(b) + src
  }

  /** The contiguous room is exact: bytes can be put behind the writer, and appended by that, if
      and only if they are no more. */
  lemma RoomBehindIff(b: Ring, src: seq<Byte>)
    requires WellFormed(b)
    ensures |src| <= ContiguousWritable(b) <==> b.w + |src| <= |b.buf| && Appended(b, src, WrittenBehind(b, src))
  {
    hide Contents, Put;
    if |src| <= ContiguousWritable(b) {
      InPlaceAppends(b, src);
    } else if b.w + |src| <= |b.buf| {
      var u := WrittenBehind(b, src);
      if WellFormed(u) { assert Readable(u) != Readable(b) + |src|; }
    }
  }

  /** So is the room at the start. */
  lemma RoomAtStartIff(b: Ring, src: seq<Byte>)
    requires WellFormed(b) && src != []
    ensures |src| <= JumpWritable(b) <==> |src| <= |b.buf| && Appended(b, src, WrittenAtStart(b, src))
  {
    hide Contents, Put;
    if |src| <= JumpWritable(b) {
      JumpAppends(b, src);
    } else if |src| <= |b.buf| {
      var u := WrittenAtStart(b, src);
      if WellFormed(u) { assert Readable(u) != Readable(b) + |src|; }
    }
  }

  /** A place is found if and only if there is one, and behind the writer if there is one there. */
  lemma PlaceIsFoundIff(b: Ring, n: nat)
    requires WellFormed(b)
    ensures Place(b, n).None? <==> forall at: nat :: !Reserved(b, at, n)
    ensures Place(b, n) == Some(b.w) <==> Reserved(b, b.w, n)
  {
    if Place(b, n).Some? { PlaceReserves(b, n); }
  }

  /** Which way a write goes: its bytes begin at the start of the buffer if and only if they do
      not fit behind the writer but do fit there, and otherwise behind the writer; and they lie
      in a row if and only if they fit into one of the two. */
  lemma WrittenInARowIff(b: Ring, src: seq<Byte>)
    requires WellFormed(b) && 0 < |src| <= Writable(b)
    ensures var u, n, jumps := Wrote(b, src), Readable(b), ContiguousWritable(b) < |src| <= JumpWritable(b);
            && 0 <= n && Pos(u, n) == (if jumps then 0 else b.w)
            && ((forall k :: n <= k < n + |src| ==> Pos(u, k) == Pos(u, n) + (k - n)) <==>
                  |src| <= ContiguousWritable(b) || |src| <= JumpWritable(b))
  {
    hide Put;
    var u, n, cw := Wrote(b, src), Readable(b), ContiguousWritable(b);
    if cw < |src| && JumpWritable(b) < |src| {
      assert n <= n + cw < n + |src| && Pos(u, n + cw) == 0 != Pos(u, n) + cw;
    }
  }

  lemma PlaceReserves(b: Ring, n: nat)
    requires WellFormed(b) && Place(b, n).Some?
    ensures Reserved(b, Place(b, n).value, n)
  {
  }

  /** Filling reserved memory disturbs no unread byte. */
  lemma FillDisturbsNothing(b: Ring, n: nat, at: nat, src: seq<Byte>)
    requires WellFormed(b) && Reserved(b, at, n) && |src| <= n
    ensures var filled := b.(buf := Put(b.buf, at, src));
            WellFormed(filled) && Reserved(filled, at, n) && Contents(filled) == Contents(b)
  {
    hide Put, Contents;
    var u, v := Contents(b.(buf := Put(b.buf, at, src))), Contents(b);
    forall i | 0 <= i < |u| ensures u[i] == v[i] {}
  }

  // The bytes src stand at position at.
  predicate Filled(b: Ring, at: nat, src: seq<Byte>) {
    at + |src| <= |b.buf| && b.buf[at..at + |src|] == src
  }

  lemma FilledIsPut(b: Ring, at: nat, src: seq<Byte>)
    requires Filled(b, at, src)
    ensures Put(b.buf, at, src) == b.buf
  {
    var u := Put(b.buf, at, src);
    forall i | 0 <= i < |u| ensures u[i] == b.buf[i] {
      if at <= i < at + |src| { assert b.buf[at..at + |src|][i - at] == b.buf[i]; }
    }
  }

  // The reservation is still good: it is at the start, or nothing has cleared the ring.
  predicate StillGood(b: Ring, at: nat) { at == 0 || Readable(b) > 0 }

  lemma MoveAppends(b: Ring, at: nat, n: nat, src: seq<Byte>)
    requires WellFormed(b) && Reserved(b, at, n) && |src| <= n && Filled(b, at, src) && StillGood(b, at)
    ensures WellFormed(Moved(b, at, |src|)) && Contents(Moved(b, at, |src|)) == Contents(b) + src
  {
    FilledIsPut(b, at, src);
    hide Put, Contents;
    if at == b.w && |src| <= ContiguousWritable(b) { InPlaceAppends(b, src); } else { JumpAppends(b, src); }
  }

  lemma MoveAfterClearing(b: Ring, at: nat, n: nat, src: seq<Byte>)
    requires WellFormed(b) && Reserved(b, at, n) && |src| <= n && !StillGood(b, at)
    ensures Cleared(b) && WellFormed(Moved(b, at, |src|)) && Contents(b) == []
    ensures Contents(Moved(b, at, |src|)) == b.buf[..|src|]
  {
  }

  /** Moving the writer by what was filled in appends exactly that, if and only if the
      reservation is still good or, by chance, the same bytes stand at the start. */
  lemma MoveAppendsIff(b: Ring, at: nat, n: nat, src: seq<Byte>)
    requires WellFormed(b) && Reserved(b, at, n) && |src| <= n && Filled(b, at, src)
    ensures WellFormed(Moved(b, at, |src|)) && |src| <= |b.buf|
    ensures Contents(Moved(b, at, |src|)) == Contents(b) + src <==> StillGood(b, at) || b.buf[..|src|] == src
  {
    hide Contents, Moved, Reserved;
    if StillGood(b, at) {
      MoveAppends(b, at, n, src);
    } else {
      MoveAfterClearing(b, at, n, src);
      assert Contents(b) + src == src;
    }
  }

  // ---------------------------------------------------------------- reading

  function Refresh(b: Ring): Ring {
    if b.w == b.r then b.(w := 0, r := 0, t := |b.buf|) else b
  }

  function Took(b: Ring, n: nat): Ring
    requires n <= Readable(b)
  {
    if n <= ContiguousReadable(b) then
      Refresh(b.(r := if b.r + n == b.t then 0 else b.r + n))
    else
      Refresh(b.(r := n - ContiguousReadable(b)))
  }

  function Skipped(b: Ring, n: nat): Ring
    requires n <= ContiguousReadable(b)
  {
    Refresh(b.(r := b.r + n))
  }

  // A read that drains a ring in one piece whose writer stands on an old truncate position.
  predicate DrainsAtTruncation(b: Ring, n: nat) {
    b.r <= b.w == b.t && n == b.w - b.r
  }

  // u holds what is left of b's contents after n bytes.
  ghost predicate Dropped(b: Ring, n: nat, u: Ring)
    requires WellFormed(b) && n <= Readable(b)
  {
    WellFormed(u) && Contents(u) == Contents(b)[n..]
  }

  lemma DropByPosition(b: Ring, n: nat, u: Ring)
    requires WellFormed(b) && n <= Readable(b) && WellFormed(u) && u.buf == b.buf && Readable(u) == Readable(b) - n
    requires forall i :: 0 <= i < Readable(u) ==> Pos(u, i) == Pos(b, n + i)
    ensures Dropped(b, n, u)
  {
    hide Contents;
    var s, v := Contents(u), Contents(b)[n..];
    forall i | 0 <= i < |s| ensures s[i] == v[i] {
      assert s[i] == u.buf[Pos(u, i)] && Contents(b)[n + i] == b.buf[Pos(b, n + i)];
    }
  }

  lemma ReadInOnePiece(b: Ring, n: nat)
    requires WellFormed(b) && n <= Readable(b) && b.w >= b.r && !DrainsAtTruncation(b, n)
    ensures Dropped(b, n, Took(b, n))
  {
    DropByPosition(b, n, Took(b, n));
  }

  lemma ReadFirstPart(b: Ring, n: nat)
    requires WellFormed(b) && n <= ContiguousReadable(b) && b.w < b.r
    ensures Dropped(b, n, Took(b, n))
  {
    DropByPosition(b, n, Took(b, n));
  }

  lemma ReadAcross(b: Ring, n: nat)
    requires WellFormed(b) && ContiguousReadable(b) < n <= Readable(b) && b.w < b.r
    ensures Dropped(b, n, Took(b, n))
  {
    DropByPosition(b, n, Took(b, n));
  }

  lemma ReadDrains(b: Ring, n: nat)
    requires WellFormed(b) && DrainsAtTruncation(b, n)
    ensures n == Readable(b) && WellFormed(Took(b, n)) && Contents(Took(b, n)) == b.buf[..b.w] != []
  {
  }

  /** A read drops exactly the bytes it returns, except that draining at the truncate position
      sends r, but not w, back to 0 and so brings read bytes back. */
  lemma ReadDrops(b: Ring, n: nat)
    requires WellFormed(b) && n <= Readable(b)
    ensures WellFormed(Took(b, n))
    ensures Contents(Took(b, n)) == Contents(b)[n..] <==> !DrainsAtTruncation(b, n)
    ensures DrainsAtTruncation(b, n) ==> Contents(b)[n..] == [] && Contents(Took(b, n)) == b.buf[..b.w] != []
  {
    hide Took, Contents;
    if DrainsAtTruncation(b, n) {
      ReadDrains(b, n);
    } else if b.w >= b.r {
      ReadInOnePiece(b, n);
    } else if n <= ContiguousReadable(b) {
      ReadFirstPart(b, n);
    } else {
      ReadAcross(b, n);
    }
  }

  /** The contiguous readable bytes are exactly the unread bytes that follow each other from r on. */
  lemma InARowIff(b: Ring, n: nat)
    requires WellFormed(b)
    ensures n <= ContiguousReadable(b) <==> n <= Readable(b) && forall i :: 0 <= i < n ==> Pos(b, i) == b.r + i
  {
    if ContiguousReadable(b) < n <= Readable(b) { assert Pos(b, b.t - b.r) == 0; }
  }

  lemma ShownIsPrefix(b: Ring, n: nat)
    requires WellFormed(b) && n <= ContiguousReadable(b)
    ensures b.r + n <= |b.buf| && n <= |Contents(b)| && b.buf[b.r..b.r + n] == Contents(b)[..n]
  {
    hide Contents;
    var u, v := b.buf[b.r..b.r + n], Contents(b)[..n];
    forall i | 0 <= i < n ensures u[i] == v[i] { assert Pos(b, i) == b.r + i; }
  }

  /** A move of the reader drops exactly what it skips. */
  lemma ReaderMoveDrops(b: Ring, n: nat)
    requires WellFormed(b) && n <= ContiguousReadable(b)
    ensures n <= Readable(b) && Dropped(b, n, Skipped(b, n))
  {
    DropByPosition(b, n, Skipped(b, n));
  }

  // What fetch copies out.
  function Fetched(b: Ring, n: nat): seq<Byte>
    requires WellFormed(b) && n <= Readable(b)
  {
    var cr := ContiguousReadable(b);
    if n <= cr then b.buf[b.r..b.r + n] else b.buf[b.r..b.r + cr] + b.buf[..n - cr]
  }

  lemma FetchedIsPrefix(b: Ring, n: nat)
    requires WellFormed(b) && n <= Readable(b)
    ensures n <= |Contents(b)| && Fetched(b, n) == Contents(b)[..n]
  {
    hide Contents;
    var u, v := Fetched(b, n), Contents(b)[..n];
    assert |u| == n == |v|;
    forall i | 0 <= i < n ensures u[i] == v[i] { assert v[i] == b.buf[Pos(b, i)]; }
  }

  /** Such a read is within reach: in a buffer of 8, write 6, read 5, write 3, read 1, write 3
      and read 6 leave 6 bytes to be read again. */
  lemma DrainedBytesComeBack(buf: seq<Byte>, six: seq<Byte>, three: seq<Byte>)
    requires |buf| == 8 && |six| == 6 && |three| == 3
    ensures var b1 := Wrote(Ring(buf, 0, 0, 8), six);
            Readable(b1) == 6 && WellFormed(Took(b1, 5)) && Writable(Took(b1, 5)) == 6 &&
            var b2 := Wrote(Took(b1, 5), three);
            Readable(b2) == 4 && WellFormed(Took(b2, 1)) && Writable(Took(b2, 1)) == 4 &&
            var b3 := Wrote(Took(b2, 1), three);
            Readable(b3) == 6 && Readable(Took(b3, 6)) == 6
  {
    hide Put;
  }

  // ---------------------------------------------------------------- reading while memory is reserved

  lemma ReadKeepsReserved(b: Ring, at: nat, n: nat, k: nat)
    requires WellFormed(b) && Reserved(b, at, n) && k <= Readable(b) && !DrainsAtTruncation(b, k)
    ensures Reserved(Took(b, k), at, n) && Took(b, k).buf == b.buf
  {
  }

  lemma SkipKeepsReserved(b: Ring, at: nat, n: nat, k: nat)
    requires WellFormed(b) && Reserved(b, at, n) && k <= ContiguousReadable(b)
    ensures Reserved(Skipped(b, k), at, n) && Skipped(b, k).buf == b.buf
  {
  }

  /** A reservation that is lost: 3 bytes are written, 2 more are reserved behind them and
      filled in, the 3 bytes are read, and moving the writer shows 2 of these 3 again. */
  lemma DrainLosesReservation(buf: seq<Byte>, three: seq<Byte>, two: seq<Byte>)
    requires |buf| == 8 && |three| == 3 && |two| == 2
    ensures var b := Wrote(Ring(buf, 0, 0, 8), three);
            && Place(b, 2) == Some(3)
            && var c := Took(b.(buf := Put(b.buf, 3, two)), 3);
            && Filled(c, 3, two) && !StillGood(c, 3)
            && WellFormed(Moved(c, 3, 2)) && Contents(Moved(c, 3, 2)) == three[..2]
  {
    hide Put;
  }

  // ---------------------------------------------------------------- runs

  // Reserve asks for n bytes in a row, Fill copies into them, Commit moves the writer by what
  // was filled in.  Reads may come in between.
  datatype Step =
    | DoWrite(src: seq<Byte>) | DoRead(n: nat) | DoSkip(n: nat)
    | Reserve(n: nat) | Fill(src: seq<Byte>) | Commit | Abandon

  // Memory that has been reserved, and what has been filled in so far.
  datatype Pending = Pending(at: nat, n: nat, src: seq<Byte>)

  // written and consumed are all bytes ever accepted and ever taken out.
  datatype State = State(ring: Ring, pending: Option<Pending>, written: seq<Byte>, consumed: seq<Byte>)

  predicate Enabled(s: State, step: Step) {
    match step
    case DoWrite(_) => s.pending.None?
    case DoRead(n) => !DrainsAtTruncation(s.ring, n)
    case DoSkip(_) => true
    case Reserve(_) => s.pending.None?
    case Fill(src) => s.pending.Some? && |src| <= s.pending.value.n
    case Commit => s.pending.Some? && StillGood(s.ring, s.pending.value.at)
    case Abandon => true
  }

  // The step stays inside the buffer.
  predicate Safe(s: State, step: Step) {
    WellFormed(s.ring) && (step.Fill? && s.pending.Some? ==> s.pending.value.at + |step.src| <= |s.ring.buf|)
  }

  function Apply(s: State, step: Step): State
    requires Enabled(s, step) && Safe(s, step)
  {
    var b := s.ring;
    match step
    case DoWrite(src) =>
      if |src| <= Writable(b) then s.(ring := Wrote(b, src), written := s.written + src) else s
    case DoRead(n) =>
      if n <= Readable(b) then s.(ring := Took(b, n), consumed := s.consumed + Fetched(b, n)) else s
    case DoSkip(n) =>
      if n <= ContiguousReadable(b) then s.(ring := Skipped(b, n), consumed := s.consumed + b.buf[b.r..b.r + n]) else s
    case Reserve(n) =>
      if Place(b, n).None? then s else s.(pending := Some(Pending(Place(b, n).value, n, [])))
    case Fill(src) =>
      var p := s.pending.value;
      s.(ring := b.(buf := Put(b.buf, p.at, src)), pending := Some(p.(src := src)))
    case Commit =>
      var p := s.pending.value;
      State(Moved(b, p.at, |p.src|), None, s.written + p.src, s.consumed)
    case Abandon => s.(pending := None)
  }

  ghost predicate Matches(b: Ring, written: seq<Byte>, consumed: seq<Byte>) {
    WellFormed(b) && written == consumed + Contents(b)
  }

  ghost predicate Fifo(s: State) {
    && Matches(s.ring, s.written, s.consumed)
    && (s.pending.Some? ==>
          var p := s.pending.value;
          Reserved(s.ring, p.at, p.n) && |p.src| <= p.n && Filled(s.ring, p.at, p.src))
  }

  lemma WriteMatches(b: Ring, written: seq<Byte>, consumed: seq<Byte>, src: seq<Byte>)
    requires Matches(b, written, consumed)
    ensures |src| <= Writable(b) ==>
              && Matches(Wrote(b, src), written + src, consumed)
              && Contents(Wrote(b, src)) == Contents(b) + src
  {
    hide Contents, Wrote, WellFormed, Writable;
    if |src| <= Writable(b) {
      WriteAppends(b, src);
      assert consumed + (Contents(b) + src) == consumed + Contents(b) + src;
    }
  }

  lemma ReadMatches(b: Ring, written: seq<Byte>, consumed: seq<Byte>, n: nat)
    requires Matches(b, written, consumed) && n <= Readable(b)
    ensures n <= |Contents(b)| && Fetched(b, n) == Contents(b)[..n]
    ensures Matches(Took(b, n), written, consumed + Contents(b)[..n]) <==> !DrainsAtTruncation(b, n)
  {
    hide Contents, Took, Fetched, WellFormed, Readable, DrainsAtTruncation;
    ReadDrops(b, n);
    FetchedIsPrefix(b, n);
    SplitMatches(consumed, Contents(b), n, Contents(Took(b, n)));
  }

  lemma SplitMatches(u: seq<Byte>, s: seq<Byte>, n: nat, rest: seq<Byte>)
    requires n <= |s|
    ensures u + s == u + s[..n] + rest <==> rest == s[n..]
  {
    var k := |u| + n;
    assert (u + s)[k..] == s[n..] && (u + s[..n] + rest)[k..] == rest;
    assert s == s[..n] + s[n..];
  }

  lemma SkipMatches(b: Ring, written: seq<Byte>, consumed: seq<Byte>, n: nat)
    requires Matches(b, written, consumed) && n <= ContiguousReadable(b)
    ensures n <= |Contents(b)| && b.r + n <= |b.buf| && b.buf[b.r..b.r + n] == Contents(b)[..n]
    ensures Dropped(b, n, Skipped(b, n)) && Matches(Skipped(b, n), written, consumed + Contents(b)[..n])
  {
    hide Contents, Skipped, WellFormed, ContiguousReadable;
    ReaderMoveDrops(b, n);
    ShownIsPrefix(b, n);
    SplitMatches(consumed, Contents(b), n, Contents(Skipped(b, n)));
  }

  lemma CommitMatches(b: Ring, written: seq<Byte>, consumed: seq<Byte>, at: nat, n: nat, src: seq<Byte>)
    requires Matches(b, written, consumed) && Reserved(b, at, n) && |src| <= n && Filled(b, at, src)
    ensures |src| <= |b.buf| && WellFormed(Moved(b, at, |src|))
    ensures Matches(Moved(b, at, |src|), written + src, consumed) <==> StillGood(b, at) || b.buf[..|src|] == src
    ensures StillGood(b, at) ==> Contents(Moved(b, at, |src|)) == Contents(b) + src
  {
    hide Contents, Moved, Reserved, WellFormed, Filled, StillGood;
    MoveAppendsIff(b, at, n, src);
    if StillGood(b, at) { MoveAppends(b, at, n, src); }
    var u, v := Contents(b) + src, Contents(Moved(b, at, |src|));
    assert consumed + Contents(b) + src == consumed + u;
    SamePrefix(consumed, u, v);
  }

  lemma SamePrefix(s: seq<Byte>, u: seq<Byte>, v: seq<Byte>)
    ensures s + u == s + v <==> u == v
  {
    assert (s + u)[|s|..] == u && (s + v)[|s|..] == v;
  }

  lemma FillMatches(b: Ring, written: seq<Byte>, consumed: seq<Byte>, at: nat, n: nat, src: seq<Byte>)
    requires Matches(b, written, consumed) && Reserved(b, at, n) && |src| <= n
    ensures var c := b.(buf := Put(b.buf, at, src));
            Matches(c, written, consumed) && Reserved(c, at, n) && Filled(c, at, src) && Contents(c) == Contents(b)
  {
    FillDisturbsNothing(b, n, at, src);
    hide Contents, Put;
    var c := b.(buf := Put(b.buf, at, src));
    forall i | 0 <= i < |src| ensures c.buf[at..at + |src|][i] == src[i] { assert c.buf[at + i] == src[i]; }
  }

  lemma FilledStays(b: Ring, c: Ring, at: nat, src: seq<Byte>)
    requires Filled(b, at, src) && c.buf == b.buf
    ensures Filled(c, at, src)
  {
  }

  /** What each step does: a write, a read and a skip do what they say if there is room or there
      are bytes enough, and otherwise nothing; a reservation is made if there is a place for it;
      and moving the writer appends what was filled in. */
  lemma StepsDoTheirWork(s: State, step: Step)
    requires Fifo(s) && Enabled(s, step) && Safe(s, step)
    ensures var b, u := s.ring, Apply(s, step);
            && WellFormed(u.ring)
            && match step
               case DoWrite(src) =>
                 if Readable(b) + |src| + 1 <= (if b.w >= b.r then |b.buf| else b.t) then
                   u.written == s.written + src && Contents(u.ring) == Contents(b) + src
                 else u == s
               case DoRead(n) =>
                 if n <= |Contents(b)| then
                   u.consumed == s.consumed + Contents(b)[..n] && Contents(u.ring) == Contents(b)[n..]
                 else u == s
               case DoSkip(n) =>
                 if n <= ContiguousReadable(b) then
                   && n <= |Contents(b)| && u.consumed == s.consumed + Contents(b)[..n]
                   && Contents(u.ring) == Contents(b)[n..]
                 else u == s
               case Reserve(n) =>
                 u.ring == b && (u.pending.None? <==> forall at: nat :: !Reserved(b, at, n))
                 && (u.pending.Some? ==> u.pending.value == Pending(u.pending.value.at, n, [])
                                         && Reserved(b, u.pending.value.at, n))
               case Fill(src) =>
                 u.pending == Some(s.pending.value.(src := src)) && Filled(u.ring, s.pending.value.at, src)
                 && Contents(u.ring) == Contents(b)
               case Commit =>
                 && u.pending.None? && u.written == s.written + s.pending.value.src
                 && Contents(u.ring) == Contents(b) + s.pending.value.src
               case Abandon => u == s.(pending := None)
  {
    hide Contents, Put, Wrote, Took, Skipped, Moved, Reserved, Filled, Fetched, Place, StillGood;
    var b := s.ring;
    SpaceIsShared(b);
    match step {
      case DoWrite(src) => if |src| <= Writable(b) { WriteAppends(b, src); }
      case DoRead(n) =>
        if n <= Readable(b) {
          FetchedIsPrefix(b, n);
          ReadDrops(b, n);
        }
      case DoSkip(n) =>
        if n <= ContiguousReadable(b) {
          ShownIsPrefix(b, n);
          ReaderMoveDrops(b, n);
        }
      case Reserve(n) =>
        PlaceIsFoundIff(b, n);
        if Place(b, n).Some? { PlaceReserves(b, n); }
      case Fill(src) =>
        FillMatches(b, s.written, s.consumed, s.pending.value.at, s.pending.value.n, src);
      case Commit => MoveAppends(b, s.pending.value.at, s.pending.value.n, s.pending.value.src);
      case Abandon =>
    }
  }

  lemma StepKeepsFifo(s: State, step: Step)
    requires Fifo(s) && Enabled(s, step)
    ensures Safe(s, step) && Fifo(Apply(s, step))
  {
    hide Put, Wrote, Moved, Took, Skipped, Fetched, Contents, Matches, Reserved, Filled, StillGood;
    MatchesIsWellFormed(s);
    match step
    case DoWrite(src) => WriteMatches(s.ring, s.written, s.consumed, src);
    case DoRead(n) => ReadKeepsFifo(s, n);
    case DoSkip(n) => SkipKeepsFifo(s, n);
    case Reserve(n) => ReserveKeepsFifo(s, n);
    case Fill(src) => FillMatches(s.ring, s.written, s.consumed, s.pending.value.at, s.pending.value.n, src);
    case Commit =>
      CommitMatches(s.ring, s.written, s.consumed, s.pending.value.at, s.pending.value.n, s.pending.value.src);
    case Abandon =>
  }

  lemma MatchesIsWellFormed(s: State)
    requires Fifo(s)
    ensures WellFormed(s.ring) && (s.pending.Some? ==> s.pending.value.at + s.pending.value.n <= |s.ring.buf|)
  {
    hide Contents;
  }

  lemma ReadKeepsFifo(s: State, n: nat)
    requires Fifo(s) && Enabled(s, DoRead(n)) && Safe(s, DoRead(n))
    ensures Fifo(Apply(s, DoRead(n)))
  {
    hide Took, Fetched, Contents, Matches, Reserved, Filled, DrainsAtTruncation;
    if n <= Readable(s.ring) {
      ReadMatches(s.ring, s.written, s.consumed, n);
      if s.pending.Some? {
        var p := s.pending.value;
        ReadKeepsReserved(s.ring, p.at, p.n, n);
        FilledStays(s.ring, Took(s.ring, n), p.at, p.src);
      }
    }
  }

  lemma SkipKeepsFifo(s: State, n: nat)
    requires Fifo(s) && Safe(s, DoSkip(n))
    ensures Fifo(Apply(s, DoSkip(n)))
  {
    hide Skipped, Contents, Matches, Reserved, Filled;
    if n <= ContiguousReadable(s.ring) {
      SkipMatches(s.ring, s.written, s.consumed, n);
      if s.pending.Some? {
        var p := s.pending.value;
        SkipKeepsReserved(s.ring, p.at, p.n, n);
        FilledStays(s.ring, Skipped(s.ring, n), p.at, p.src);
      }
    }
  }

  lemma ReserveKeepsFifo(s: State, n: nat)
    requires Fifo(s) && Enabled(s, Reserve(n)) && Safe(s, Reserve(n))
    ensures Fifo(Apply(s, Reserve(n)))
  {
    hide Contents, Matches, Reserved;
    if Place(s.ring, n).Some? {
      PlaceReserves(s.ring, n);
      ReservedFits(s.ring, Place(s.ring, n).value, n);
    }
  }

  lemma ReservedFits(b: Ring, at: nat, n: nat)
    requires Reserved(b, at, n)
    ensures at + n <= |b.buf| && Filled(b, at, [])
  {
  }

  ghost predicate Run(states: seq<State>, steps: seq<Step>, capacity: nat)
  {
    && |states| == |steps| + 1
    && (exists buf: seq<Byte> :: |buf| == capacity && states[0] == State(Ring(buf, 0, 0, capacity), None, [], []))
    && forall i {:trigger steps[i]} :: 0 <= i < |steps| ==>
         Enabled(states[i], steps[i]) && (Safe(states[i], steps[i]) ==> states[i + 1] == Apply(states[i], steps[i]))
  }

  /** In every run the bytes taken out, followed by those still unread, are the bytes put in:
      nothing is lost, repeated or reordered by jumps, truncation, wrap-around and reads between
      the reservation of memory and the move of the writer; and every step stays in bounds. */
  lemma {:induction false} EveryRunIsFifo(states: seq<State>, steps: seq<Step>, capacity: nat, i: nat)
    requires 0 < capacity && Run(states, steps, capacity) && i < |states|
    ensures Fifo(states[i])
    ensures WellFormed(states[i].ring) && states[i].written == states[i].consumed + Contents(states[i].ring)
    ensures i < |steps| ==> Safe(states[i], steps[i])
  {
    hide Apply, Enabled, Safe;
    if i == 0 {
      var s := states[0];
      assert Contents(s.ring) == [];
    } else {
      EveryRunIsFifo(states, steps, capacity, i - 1);
      var step := steps[i - 1];
      StepKeepsFifo(states[i - 1], step);
    }
    if i < |steps| { StepKeepsFifo(states[i], steps[i]); }
  }

  // ---------------------------------------------------------------- the object

  lemma PutNothing(buf: seq<Byte>, at: nat, src: seq<Byte>)
    requires at <= |buf| && src == []
    ensures Put(buf, at, src) == buf
  {
  }

  lemma MatchesFacts(b: Ring, written: seq<Byte>, consumed: seq<Byte>)
    requires Matches(b, written, consumed)
    ensures WellFormed(b) && Readable(b) == |Contents(b)| && Contents(b) + [] == Contents(b)
    ensures written + [] == written && consumed + [] == consumed
  {
  }

  lemma NoDrainBeyond(b: Ring, n: nat)
    ensures n > Readable(b) ==> !DrainsAtTruncation(b, n)
  {
  }

  class BytesBuffer {
    const buffer: array<Byte>
    var w: nat
    var r: nat
    var t: nat
    ghost var written: seq<Byte>
    ghost var consumed: seq<Byte>

    function View(): Ring
      reads this, buffer
    {
      Ring(buffer[..], w, r, t)
    }

    // The bytes taken out, then the unread ones, are the bytes put in.
    ghost predicate Valid()
      reads this, buffer
    {
      Matches(View(), written, consumed)
    }

    ghost function Unread(): seq<Byte>
      reads this, buffer
      requires Valid()
    {
      Contents(View())
    }

    constructor (capacity: nat)
      requires capacity > 0
      ensures Valid() && fresh(buffer) && buffer.Length == capacity && written == [] == consumed
    {
      buffer := new Byte[capacity];
      w, r, t, written, consumed := 0, 0, capacity, [], [];
    }

    // memcpy into the buffer.
    method CopyIn(at: nat, src: seq<Byte>)
      requires at + |src| <= buffer.Length
      modifies buffer
      ensures buffer[..] == Put(old(buffer[..]), at, src)
    {
      forall i | 0 <= i < |src| { buffer[at + i] := src[i]; }
    }

    /** Succeeds if and only if the bytes fit, and then appends them. */
    method Write(src: seq<Byte>) returns (ok: bool)
      requires Valid()
      modifies this, buffer
      ensures Valid() && ok == (|src| <= Writable(old(View())))
      ensures consumed == old(consumed) && written == old(written) + if ok then src else []
      ensures Unread() == old(Unread()) + if ok then src else []
    {
      hide Matches, Contents, WellFormed, Wrote, Writable, Readable;
      MatchesFacts(View(), written, consumed);
      WriteMatches(View(), written, consumed, src);
      ok := PlaceBytes(src);
      if ok { written := written + src; }
    }

    method PlaceBytes(src: seq<Byte>) returns (ok: bool)
      requires WellFormed(View())
      modifies this`w, this`t, buffer
      ensures ok == (|src| <= Writable(old(View())))
      ensures View() == if ok then Wrote(old(View()), src) else old(View())
    {
      ghost var b := View();
      var cw := ContiguousWritable(View());
      SpaceIsShared(b);
      hide Put;
      if cw >= |src| {
        CopyIn(w, src);
        AdvanceWriter(|src|);
        return true;
      }
      var jw := JumpWritable(View());
      if cw + jw < |src| { return false; }
      if jw >= |src| {
        t := w;
        CopyIn(0, src);
        w := |src|;
      } else {
        t := buffer.Length;
        PutNothing(b.buf, w, src[..0]);
        if cw > 0 { CopyIn(w, src[..cw]); }
        CopyIn(0, src[cw..]);
        w := |src| - cw;
      }
      return true;
    }

    method AdvanceWriter(n: nat)
      modifies this`w, this`t
      ensures View() == Advance(old(View()), n)
    {
      w := w + n;
      if t < w { t := buffer.Length; }
      if w == buffer.Length { w := 0; }
    }

    method RefreshCursors()
      modifies this`w, this`r, this`t
      ensures View() == Refresh(old(View()))
    {
      if w == r { w, r, t := 0, 0, buffer.Length; }
    }

    /** Succeeds if and only if that many bytes are unread, and then copies the oldest ones out. */
    method Fetch(n: nat) returns (ok: bool, dst: seq<Byte>)
      requires Valid()
      ensures ok == (n <= |Unread()|) && dst == if ok then Unread()[..n] else []
    {
      hide Contents;
      var b := View();
      SpaceIsShared(b);
      if n <= Readable(b) { FetchedIsPrefix(b, n); }
      var cr, jr := ContiguousReadable(b), JumpReadable(b);
      if cr >= n { return true, buffer[r..r + n]; }
      if cr + jr < n { return false, []; }
      dst := [];
      if cr > 0 { dst := buffer[r..r + cr]; }
      dst := dst + buffer[..n - cr];
      ok := true;
    }

    /** As Fetch, and drops the bytes; the object stays valid exactly when the read is not one
        that drains at the truncate position. */
    method Read(n: nat) returns (ok: bool, dst: seq<Byte>)
      requires Valid()
      modifies this
      ensures ok == (n <= |old(Unread())|) && dst == if ok then old(Unread())[..n] else []
      ensures written == old(written) && consumed == old(consumed) + dst
      ensures Valid() <==> !DrainsAtTruncation(old(View()), n)
    {
      hide Matches, Contents, WellFormed, Took, Readable, DrainsAtTruncation, Fetched;
      MatchesFacts(View(), written, consumed);
      NoDrainBeyond(View(), n);
      if n <= Readable(View()) { ReadMatches(View(), written, consumed, n); }
      ok, dst := Fetch(n);
      if !ok { return; }
      TakeOff(n);
      consumed := consumed + dst;
    }

    method TakeOff(n: nat)
      requires n <= Readable(View())
      modifies this`w, this`r, this`t
      ensures View() == Took(old(View()), n)
    {
      var cr := ContiguousReadable(View());
      if cr >= n {
        r := r + n;
        if r == t { r := 0; }
      } else {
        r := n - cr;
      }
      RefreshCursors();
    }

    /** Finds room for n bytes in a row, if there is any. */
    method WriterFc(n: nat) returns (place: Option<nat>)
      requires Valid()
      ensures place == Place(View(), n)
      ensures place.Some? ==> Reserved(View(), place.value, n)
      ensures place.None? <==> forall at: nat :: !Reserved(View(), at, n)
      ensures place == Some(w) <==> Reserved(View(), w, n)
    {
      PlaceIsFoundIff(View(), n);
      var cw := ContiguousWritable(View());
      if cw >= n { return Some(w); }
      var jw := JumpWritable(View());
      if jw >= n { return Some(0); }
      return None;
    }

    // The caller's copy into the memory that WriterFc found.
    method FillIn(at: nat, ghost n: nat, src: seq<Byte>)
      requires Valid() && Reserved(View(), at, n) && |src| <= n
      modifies buffer
      ensures Valid() && Unread() == old(Unread()) && Reserved(View(), at, n) && Filled(View(), at, src)
    {
      ReservedFits(View(), at, n);
      hide Put, Contents, Matches, Filled, Reserved, WellFormed;
      ghost var b := View();
      FillMatches(b, written, consumed, at, n, src);
      CopyIn(at, src);
      assert View() == b.(buf := Put(b.buf, at, src));
    }

    /** Appends what the caller filled in, which may be less than what it asked for.  The
        history stays exact if and only if the reservation is still good: it was at the start
        of the buffer, or the buffer has not been drained since. */
    method WriterMoveN(at: nat, ghost n: nat, ghost src: seq<Byte>, num: nat)
      requires Valid() && Reserved(View(), at, n) && |src| == num <= n && Filled(View(), at, src)
      modifies this
      ensures WellFormed(View()) && num <= buffer.Length
      ensures written == old(written) + src && consumed == old(consumed)
      ensures Valid() <==> StillGood(old(View()), at) || buffer[..num] == src
      ensures StillGood(old(View()), at) ==> Unread() == old(Unread()) + src
    {
      hide Contents, Matches, WellFormed, Reserved, Filled, StillGood;
      ghost var b := View();
      CommitMatches(b, written, consumed, at, n, src);
      if at == 0 {
        if w > 0 { t := w; }
        w := num;
      } else {
        AdvanceWriter(num);
      }
      assert View() == Moved(b, at, num) && View().buf == b.buf;
      assert buffer[..num] == b.buf[..num];
      written := written + src;
    }

    method ReaderFc(n: nat) returns (place: Option<nat>)
      requires Valid()
      ensures place == if n <= ContiguousReadable(View()) then Some(r) else None
      ensures place.Some? <==> n <= |Unread()| && forall i :: 0 <= i < n ==> Pos(View(), i) == r + i
      ensures place.Some? ==> place.value + n <= buffer.Length && n <= |Unread()|
                              && buffer[place.value..place.value + n] == Unread()[..n]
    {
      var cr := ContiguousReadable(View());
      InARowIff(View(), n);
      if cr >= n {
        ShownIsPrefix(View(), n);
        return Some(r);
      }
      return None;
    }

    method SkipTo(n: nat)
      requires n <= ContiguousReadable(View())
      modifies this`w, this`r, this`t
      ensures View() == Skipped(old(View()), n)
    {
      r := r + n;
      RefreshCursors();
    }

    /** Drops n bytes if that many lie in a row. */
    method ReaderMove(n: nat) returns (ok: bool)
      requires Valid()
      modifies this
      ensures Valid() && ok == (n <= ContiguousReadable(old(View()))) && written == old(written)
      ensures ok ==> n <= |old(Unread())| && Unread() == old(Unread())[n..]
                     && consumed == old(consumed) + old(Unread())[..n]
      ensures !ok ==> View() == old(View()) && consumed == old(consumed)
    {
      hide Matches, Contents, WellFormed, ContiguousReadable, Readable;
      ghost var b := View();
      MatchesFacts(b, written, consumed);
      var cr := ContiguousReadable(View());
      if cr < n { return false; }
      SkipMatches(b, written, consumed, n);
      SkipTo(n);
      consumed := consumed + Contents(b)[..n];
      return true;
    }
  }
}
