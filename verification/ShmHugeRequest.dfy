/** Requests of 2^31 lines or more to the shared-memory ring (muggle/c/sync/shm_ring_buffer.c).
    No ring has so many lines, but the comparison with the lines before the reader is one of
    signed numbers, and such a request counts as negative there. */
module ShmHugeRequest {
  import opened ShmRing
  import opened Words

  // A 32-bit word as a signed number.
  function Signed(n: nat): int { if n < TWO_TO_31 then n else n - TWO_TO_32 }

  // muggle_shm_ringbuf_update_cached_remain for any 32-bit number of lines, the reader
  // standing still.  The free space is an unsigned word.
  function Update(s: State, nl: nat): State
    requires s.w < |s.mem|
  {
    if s.r > s.w then s.(cached := s.r - s.w - 1)
    else if |s.mem| - s.w - 1 >= nl then s.(cached := |s.mem| - s.w - 1)
    else if s.r - 1 >= Signed(nl) then
      s.(mem := s.mem[s.w := s.mem[s.w].(nBytes := 0, nLines := 0)], mark := s.w, w := 0,
         cached := (s.r - 1) % TWO_TO_32)
    else s
  }

  // The allocation goes ahead.
  predicate Grants(s: State, nl: nat)
    requires s.w < |s.mem|
  {
    s.cached >= nl || Update(s, nl).cached >= nl
  }

  /** For all other requests this is the update of the protocol. */
  lemma UpdateIsProtocol(s: State, nb: nat, nl: nat)
    requires Layout(s) && 0 < nl < TWO_TO_31 && s.cached < nl
    ensures var u := UpdateResult(s.(wpc := WLoading(nb, nl)));
            Update(s, nl) == u.(wpc := s.wpc) && (Grants(s, nl) <==> u.wpc == WHeader(nb, nl))
  {
    hide Tiled;
  }

  // What the update does then.
  lemma HugeUpdate(s: State, nl: nat)
    requires Layout(s) && TWO_TO_31 <= nl < TWO_TO_32
    ensures var u := Update(s, nl);
            if s.r > s.w then u == s.(cached := s.r - s.w - 1)
            else u == s.(mem := s.mem[s.w := s.mem[s.w].(nBytes := 0, nLines := 0)], mark := s.w, w := 0,
                         cached := if s.r == 0 then TWO_TO_32 - 1 else s.r - 1)
  {
    hide Tiled;
  }

  lemma JumpKeepsUnread(s: State, u: State)
    requires Layout(s) && s.r <= s.w && u.w == 0 && u.r == s.r && u.mark == s.w
    requires u.mem == s.mem[s.w := s.mem[s.w].(nBytes := 0, nLines := 0)]
    ensures Unread(u) == (if s.r > 0 then Unread(s) else [])
    ensures s.r == 0 < s.w ==> Unread(s) != []
  {
    TiledFrame(s.mem, u.mem, s.r, s.w);
    assert Recs(u.mem, 0, 0) == [];
  }

  lemma SameUnread(s: State, u: State)
    requires u == s.(cached := u.cached)
    ensures Unread(u) == Unread(s)
  {
  }

  lemma EmptyUnread(s: State)
    requires s.r == s.w
    ensures Unread(s) == []
  {
  }

  /** A request of 2^31 lines or more is refused if and only if the reader does not stand on
      line 0, and leaves the unread records alone if and only if the reader does not stand
      there or the writer does as well.  Even when refused it makes the writer jump to line 0
      if the reader is not ahead of it, which leaves it the lines before the reader. */
  lemma HugeRequest(s: State, nl: nat)
    requires Layout(s) && s.cached <= Room(s) && TWO_TO_31 <= nl < TWO_TO_32
    ensures !Grants(s, nl) <==> s.r > 0
    ensures Unread(Update(s, nl)) == Unread(s) <==> s.r > 0 || s.w == 0
    ensures 0 < s.r <= s.w ==> var u := Update(s, nl); u.w == 0 && u.cached == s.r - 1 == Room(u)
  {
    hide Tiled, Update, Unread;
    HugeUpdate(s, nl);
    var u := Update(s, nl);
    if s.r > s.w {
      SameUnread(s, u);
    } else {
      JumpKeepsUnread(s, u);
      if s.w == 0 { EmptyUnread(s); }
    }
  }

  /** A refused request can stop the ring for good: if nothing is unread and both cursors are
      at line 1, from then on the writer is refused every request and the reader finds nothing. */
  lemma HugeRequestStopsTheRing(s: State, nl: nat, later: nat)
    requires Layout(s) && s.cached <= Room(s) && TWO_TO_31 <= nl < TWO_TO_32 && s.r == s.w == 1 && s.rpc == RIdle
    requires 0 < later < TWO_TO_32
    ensures var u := Update(s, nl);
            && u.w < |u.mem| && u.r < |u.mem| && !Grants(u, later) && Update(u, later) == u && FetchResult(u) == u
  {
    hide Tiled;
  }
}
