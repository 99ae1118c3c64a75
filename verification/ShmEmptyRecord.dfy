/** Records of no bytes in the shared-memory ring (muggle/c/sync/shm_ring_buffer.c).  The
    allocation accepts a length of 0, and the header it then writes cannot be told from a
    wrap marker.  This module says what that does to the queue, from every state in which
    the writer has been granted its lines. */
module ShmEmptyRecord {
  import opened ShmRing

  // The writer has been granted nl lines for nb bytes and is about to write the header.
  ghost predicate Granted(s: State, nb: nat, nl: nat) {
    Layout(s) && s.cached <= Room(s) && s.wpc == WHeader(nb, nl) && 0 < nl <= s.cached && s.rpc.RIdle?
  }

  function NewRec(s: State, nb: nat, nl: nat): Rec
    requires 0 < nl && s.w + nl <= |s.mem|
  {
    Rec(nb, s.mem[s.w].body, s.mem[s.w + 1..s.w + nl])
  }

  // The ring after header and publication, the payload being in place.
  function Published(s: State, nb: nat, nl: nat): State
    requires 0 < nl <= s.cached && s.w + nl <= |s.mem|
  {
    s.(mem := s.mem[s.w := s.mem[s.w].(nBytes := nb, nLines := nl)], w := s.w + nl, cached := s.cached - nl,
       wpc := WIdle, sent := s.sent + [NewRec(s, nb, nl)])
  }

  lemma PublishedIsSteps(s: State, nb: nat, nl: nat)
    requires Granted(s, nb, nl)
    ensures Safe(s, Header) && Safe(Apply(s, Header), Move)
    ensures Published(s, nb, nl) == Apply(Apply(s, Header), Move)
  {
    hide Tiled;
    var t := Apply(s, Header);
    assert t.mem[s.w + 1..s.w + nl] == s.mem[s.w + 1..s.w + nl];
  }

  predicate InBounds(s: State) { s.w < |s.mem| && s.r < |s.mem| }

  // A fetch and, if it hands out a record, the move past it, the writer standing still.
  function ReadOne(s: State): State {
    if InBounds(s) then
      var f := FetchResult(s);
      if f.rpc.RHolding? then
        f.(got := f.got + [RecAt(f.mem, f.r)], r := f.r + f.mem[f.r].nLines, rpc := RIdle)
      else f
    else s
  }

  function FetchSteps(s: State): State
    requires InBounds(s) && s.rpc.RIdle?
  {
    var s1 := Apply(s, Fetch);
    var s2 := if s1.rpc.RCheck? then Apply(s1, ReadHeader) else s1;
    if s2.rpc.RJumping? then Apply(Apply(s2, ReadJump), ReadHeaderAtZero) else s2
  }

  lemma ReadOneIsSteps(s: State)
    requires InBounds(s) && s.rpc.RIdle?
    ensures FetchResult(s) == FetchSteps(s)
    ensures var f := FetchSteps(s);
            && (f.rpc.RHolding? && Safe(f, ReadMove) ==> ReadOne(s) == Apply(f, ReadMove))
            && (!f.rpc.RHolding? ==> ReadOne(s) == f)
  {
  }

  function ReadMany(s: State, n: nat): State
    decreases n
  {
    if n == 0 then s else ReadMany(ReadOne(s), n - 1)
  }

  lemma {:induction false} EmptyHeaderEndsTiling(mem: seq<Line>, a: nat, p: nat, b: nat)
    requires Tiled(mem, a, p) && p < b <= |mem| && mem[p].nBytes == 0
    ensures !Tiled(mem, a, b)
    decreases p - a
  {
    if a == p {
    } else {
      EmptyHeaderEndsTiling(mem, a + mem[a].nLines, p, b);
    }
  }

  lemma TilesSurvive(s: State, nb: nat, nl: nat)
    requires Granted(s, nb, nl)
    ensures var p := Published(s, nb, nl);
            && Tiled(p.mem, if s.r <= s.w then s.r else 0, s.w) && p.w < |p.mem| && p.mem[s.w].nBytes == nb
            && (s.w < s.r ==> p.w < s.r && p.mem[s.mark] == s.mem[s.mark] && Tiled(p.mem, s.r, s.mark))
  {
    var mem := Published(s, nb, nl).mem;
    if s.r <= s.w {
      TiledFrame(s.mem, mem, s.r, s.w);
    } else {
      TiledFrame(s.mem, mem, 0, s.w);
      TiledFrame(s.mem, mem, s.r, s.mark);
    }
  }

  /** Publishing leaves a queue of records behind if and only if the record has a byte,
      whatever was unread and wherever the cursors stand. */
  lemma QueueSurvivesIffNonEmpty(s: State, nb: nat, nl: nat)
    requires Granted(s, nb, nl)
    ensures Layout(Published(s, nb, nl)) <==> 0 < nb
  {
    TilesSurvive(s, nb, nl);
    hide Recs, Tiled;
    var p, a := Published(s, nb, nl), if s.r <= s.w then s.r else 0;
    if nb == 0 {
      EmptyHeaderEndsTiling(p.mem, a, s.w, p.w);
    } else {
      TiledAppend(p.mem, a, s.w);
    }
  }

  // ---------------------------------------------------------------- the backlog is read first

  lemma FetchFindsHead(s: State, nb: nat, nl: nat)
    requires Granted(s, nb, nl) && Unread(s) != []
    ensures InBounds(s)
    ensures var f := FetchResult(s);
            && Layout(f) && Unread(f) == Unread(s) && Room(s) <= Room(f)
            && f == s.(r := f.r, rpc := RHolding) && f.r != f.w
            && 0 < f.mem[f.r].nBytes && 0 < f.mem[f.r].nLines && f.r + f.mem[f.r].nLines < |f.mem|
            && (f.w < f.r || f.r + f.mem[f.r].nLines <= f.w)
            && (f.r == s.r || (f.r == 0 && s.mem[s.r].nBytes == 0 && 0 < s.w < s.r))
  {
    NothingUnread(s);
    var f := FetchResult(s);
    if s.mem[s.r].nBytes == 0 {
      ZeroHeaderIsTheMarker(s);
      JumpedReaderSeesTheSame(s, f);
    }
    hide Recs, Unread;
  }

  lemma ReadTakesHead(s: State, nb: nat, nl: nat)
    requires Granted(s, nb, nl) && Unread(s) != []
    ensures var t := ReadOne(s);
            && Granted(t, nb, nl) && t == s.(r := t.r, got := s.got + [Unread(s)[0]])
            && Unread(t) == Unread(s)[1..]
  {
    hide FetchResult, Tiled, Recs, Unread;
    FetchFindsHead(s, nb, nl);
    var f := FetchResult(s);
    HeadOfUnread(f, ReadOne(s));
    hide Layout;
  }

  lemma SameFetch(s: State, nb: nat, nl: nat)
    requires Granted(s, nb, nl) && Unread(s) != []
    ensures var p, f := Published(s, nb, nl), FetchResult(s);
            && InBounds(s) && InBounds(p) && FetchResult(p) == p.(r := f.r, rpc := RHolding)
            && p.mem[f.r] == f.mem[f.r] && RecAt(p.mem, f.r) == RecAt(f.mem, f.r)
  {
    FetchFindsHead(s, nb, nl);
    hide Tiled, Recs, Unread;
    var p, f := Published(s, nb, nl), FetchResult(s);
    var n := f.mem[f.r].nLines;
    assert p.mem[f.r + 1..f.r + n] == f.mem[f.r + 1..f.r + n];
  }

  /** A record behind the backlog does not disturb the reading of the backlog, empty or not. */
  lemma ReadCommutes(s: State, nb: nat, nl: nat)
    requires Granted(s, nb, nl) && Unread(s) != []
    ensures Granted(ReadOne(s), nb, nl)
    ensures ReadOne(Published(s, nb, nl)) == Published(ReadOne(s), nb, nl)
  {
    ReadTakesHead(s, nb, nl);
    FetchFindsHead(s, nb, nl);
    SameFetch(s, nb, nl);
    hide FetchResult, Unread, Layout, Granted, RecAt;
  }

  lemma {:induction false} BacklogIsReadFirst(s: State, nb: nat, nl: nat)
    requires Granted(s, nb, nl)
    ensures var n := |Unread(s)|;
            var t := ReadMany(s, n);
            && Granted(t, nb, nl) && Unread(t) == [] && t == s.(r := t.r, got := s.got + Unread(s))
            && ReadMany(Published(s, nb, nl), n) == Published(t, nb, nl)
    decreases |Unread(s)|
  {
    hide Published, ReadOne, Unread, Granted;
    if Unread(s) == [] {
      assert s.got + Unread(s) == s.got;
    } else {
      ReadTakesHead(s, nb, nl);
      ReadCommutes(s, nb, nl);
      var t := ReadOne(s);
      BacklogIsReadFirst(t, nb, nl);
      assert s.got + Unread(s) == s.got + [Unread(s)[0]] + Unread(s)[1..];
    }
  }

  // ---------------------------------------------------------------- and then the record, or not

  // What a fetch does with a record that nothing unread stands before.
  lemma NextIffNonEmpty(s: State, nb: nat, nl: nat)
    requires Granted(s, nb, nl) && Unread(s) == []
    ensures var q := Published(s, nb, nl);
            && InBounds(q)
            && var f := FetchResult(q);
            && (f.rpc.RHolding? && f.r == s.w <==> 0 < nb)
            && (0 < nb ==> RecAt(f.mem, f.r) == NewRec(s, nb, nl))
            && (nb == 0 ==> f.r == 0 && (f.rpc.RHolding? <==> 0 < s.w && s.mem[0].nBytes != 0))
  {
    NothingUnread(s);
    hide Tiled, Recs, Unread;
    var q := Published(s, nb, nl);
    assert q.mem[s.w + 1..s.w + nl] == s.mem[s.w + 1..s.w + nl];
  }

  /** After everything before it has been read, a published record is what the next fetch hands
      out if and only if it has a byte.  If it has none, the reader goes back to line 0, and
      hands out again whatever record stands there. */
  lemma DeliveredIffNonEmpty(s: State, nb: nat, nl: nat)
    requires Granted(s, nb, nl)
    ensures var q := ReadMany(Published(s, nb, nl), |Unread(s)|);
            && q.got == s.got + Unread(s) && InBounds(q)
            && var f := FetchResult(q);
            && (f.rpc.RHolding? && f.r == s.w <==> 0 < nb)
            && (0 < nb ==> RecAt(f.mem, f.r) == NewRec(s, nb, nl))
            && (nb == 0 ==> f.r == 0 && (f.rpc.RHolding? <==> 0 < s.w && s.mem[0].nBytes != 0))
  {
    hide FetchResult, Granted, RecAt, InBounds, Unread, ReadMany;
    BacklogIsReadFirst(s, nb, nl);
    var t := ReadMany(s, |Unread(s)|);
    NextIffNonEmpty(t, nb, nl);
  }

  /** The failure itself: one record is written and read, an empty one is published, and the
      next fetch hands out the first record for a second time. */
  lemma EmptyRecordRepeatsTheFirst(s: State, nb: nat, nl: nat, empty: nat)
    requires Granted(s, nb, nl) && s.r == s.w == 0 && 0 < nb && 0 < empty <= s.cached - nl
    ensures var t := ReadOne(Published(s, nb, nl)).(wpc := WHeader(0, empty));
            && Granted(t, 0, empty) && t.got == s.got + [NewRec(s, nb, nl)]
            && ReadOne(Published(t, 0, empty)).got == s.got + [NewRec(s, nb, nl), NewRec(s, nb, nl)]
  {
    NothingUnread(s);
    NextIffNonEmpty(s, nb, nl);
    var p := Published(s, nb, nl);
    var t := ReadOne(p).(wpc := WHeader(0, empty));
    assert Tiled(t.mem, t.r, t.w);
    NothingUnread(t);
    hide Unread, Recs, Tiled;
    var q := Published(t, 0, empty);
    assert q.mem[1..nl] == s.mem[1..nl];
  }
}
