/** The shared-memory ring of variable-length records (muggle/c/sync/shm_ring_buffer.c):
    one writer, one reader, a wrap marker (a header with nBytes == 0) and a cached amount
    of contiguous free space.

    The protocol is a transition system with one step for each access to a shared cell.
    Sequential consistency is assumed.  A cache line is a header (nBytes, nLines) and a
    body; in a line that continues a record the header cells belong to the payload too.
*/
module ShmRing {
  import opened NextPower
  import opened Options
  import opened PowerOfTwo
  import opened Words

  datatype Line = Line(nBytes: nat, nLines: nat, body: int)

  // A record as the reader sees it: its length, the body of its first line, its other lines.
  datatype Rec = Rec(nBytes: nat, first: int, rest: seq<Line>)

  // Where the writer stands.  nb and nl are the requested bytes and cache lines.
  datatype WriterPc =
    | WIdle
    | WLoading(nb: nat, nl: nat)              // about to load read_cursor
    | WMarking(nb: nat, nl: nat, left: nat)   // about to write the wrap marker
    | WJumping(nb: nat, nl: nat, left: nat)   // about to store 0 into write_cursor
    | WHeader(nb: nat, nl: nat)               // about to write the record's header
    | WReady(nb: nat, nl: nat)                // the record is handed to the caller

  // Where the reader stands.  wp is the write cursor it loaded; backlog records how many
  // records were unread at that load.
  datatype ReaderPc =
    | RIdle
    | RCheck(wp: nat, backlog: nat)  // about to read the header at read_cursor
    | RJumping                       // about to store 0 into read_cursor
    | RAtZero                        // about to read the header at 0
    | RHolding                       // a record has been handed to the caller

  // mark (where the last wrap marker was put), sent and got are history variables:
  // no step reads them.
  datatype State = State(
    mem: seq<Line>, w: nat, r: nat, cached: nat, wpc: WriterPc, rpc: ReaderPc,
    mark: nat, sent: seq<Rec>, got: seq<Rec>)

  datatype Step =
    | Begin(nb: nat, nl: nat) | Load | Mark | Jump | Header | Put(k: nat, line: Line) | Move
    | Fetch | ReadHeader | ReadJump | ReadHeaderAtZero | ReadMove

  /** The state set up by muggle_shm_ringbuf_open. */
  predicate Init(s: State) {
    && 1 <= |s.mem| < TWO_TO_31
    && s.w == 0 && s.r == 0 && s.cached == |s.mem| - 1
    && s.wpc == WIdle && s.rpc == RIdle && s.sent == [] && s.got == []
  }

  // Which step the program counters allow.  The caller asks for at least one line.
  predicate Enabled(s: State, step: Step) {
    match step
    case Begin(nb, nl) => (s.wpc.WIdle? || s.wpc.WReady?) && 0 < nl < TWO_TO_31
    case Load => s.wpc.WLoading?
    case Mark => s.wpc.WMarking?
    case Jump => s.wpc.WJumping?
    case Header => s.wpc.WHeader?
    case Put(k, _) => s.wpc.WReady? && k < s.wpc.nl
    case Move => s.wpc.WReady?
    case Fetch => s.rpc.RIdle? || s.rpc.RHolding?
    case ReadHeader => s.rpc.RCheck?
    case ReadJump => s.rpc.RJumping?
    case ReadHeaderAtZero => s.rpc.RAtZero?
    case ReadMove => s.rpc.RHolding?
  }

  // A record of no bytes cannot be told from the wrap marker.
  predicate Proper(step: Step) {
    step.Begin? ==> 0 < step.nb
  }

  // The step stays inside the ring's memory and its unsigned arithmetic does not wrap.
  predicate Safe(s: State, step: Step) {
    match step
    case Begin(_, _) => true
    case Load => s.w < |s.mem|
    case Mark => s.w < |s.mem|
    case Jump => true
    case Header => s.w < |s.mem|
    case Put(k, _) => s.w + k < |s.mem|
    case Move => s.w < |s.mem| && s.mem[s.w].nLines <= s.cached && s.wpc.WReady?
                 && 0 < s.wpc.nl && s.w + s.wpc.nl < |s.mem| && s.w + s.mem[s.w].nLines < |s.mem|
    case Fetch => s.w < |s.mem| && s.r < |s.mem|
    case ReadHeader => s.r < |s.mem|
    case ReadJump => true
    case ReadHeaderAtZero => 0 < |s.mem|
    case ReadMove => s.r < |s.mem| && 0 < s.mem[s.r].nLines && s.r + s.mem[s.r].nLines < |s.mem|
  }

  // The record whose header is at line p.
  function RecAt(mem: seq<Line>, p: nat): Rec {
    if p < |mem| && 0 < mem[p].nLines && p + mem[p].nLines <= |mem| then
      Rec(mem[p].nBytes, mem[p].body, mem[p + 1..p + mem[p].nLines])
    else Rec(0, 0, [])
  }

  // What muggle_shm_ringbuf_update_cached_remain does with the read cursor it loaded.
  function AfterLoad(s: State, nb: nat, nl: nat, rPos: nat): State
    requires s.w < |s.mem|
  {
    if rPos > s.w then
      var remain := rPos - s.w - 1;
      s.(cached := remain, wpc := if remain < nl then WIdle else WHeader(nb, nl))
    else if |s.mem| - s.w - 1 >= nl then
      s.(cached := |s.mem| - s.w - 1, wpc := WHeader(nb, nl))
    else if rPos - 1 >= nl then
      s.(wpc := WMarking(nb, nl, rPos - 1))
    else
      s.(wpc := if s.cached < nl then WIdle else WHeader(nb, nl))
  }

  function Apply(s: State, step: Step): State
    requires Enabled(s, step) && Safe(s, step)
  {
    match step
    case Begin(nb, nl) => s.(wpc := if s.cached < nl then WLoading(nb, nl) else WHeader(nb, nl))
    case Load => AfterLoad(s, s.wpc.nb, s.wpc.nl, s.r)
    case Mark =>
      s.(mem := s.mem[s.w := s.mem[s.w].(nBytes := 0, nLines := 0)],
         wpc := WJumping(s.wpc.nb, s.wpc.nl, s.wpc.left))
    case Jump => s.(mark := s.w, w := 0, cached := s.wpc.left, wpc := WHeader(s.wpc.nb, s.wpc.nl))
    case Header =>
      s.(mem := s.mem[s.w := s.mem[s.w].(nBytes := s.wpc.nb, nLines := s.wpc.nl)],
         wpc := WReady(s.wpc.nb, s.wpc.nl))
    case Put(k, line) =>
      s.(mem := s.mem[s.w + k := if k == 0 then s.mem[s.w].(body := line.body) else line])
    case Move =>
      s.(sent := s.sent + [Rec(s.wpc.nb, s.mem[s.w].body, s.mem[s.w + 1..s.w + s.wpc.nl])],
         cached := s.cached - s.mem[s.w].nLines,
         w := s.w + s.mem[s.w].nLines, wpc := WIdle)
    case Fetch =>
      s.(rpc := if s.w == s.r then RIdle else RCheck(s.w, if |s.got| <= |s.sent| then |s.sent| - |s.got| else 0))
    case ReadHeader =>
      s.(rpc := if s.mem[s.r].nBytes != 0 then RHolding else if s.rpc.wp == 0 then RIdle else RJumping)
    case ReadJump => s.(r := 0, rpc := RAtZero)
    case ReadHeaderAtZero => s.(rpc := if s.mem[0].nBytes != 0 then RHolding else RIdle)
    case ReadMove =>
      s.(got := s.got + [RecAt(s.mem, s.r)], r := s.r + s.mem[s.r].nLines, rpc := RIdle)
  }

  // Records fill the lines from a up to b exactly.
  ghost predicate Tiled(mem: seq<Line>, a: nat, b: nat)
    decreases b - a
  {
    a <= b <= |mem| &&
    (a < b ==>
       && 0 < mem[a].nBytes && 0 < mem[a].nLines && a + mem[a].nLines <= b
       && Tiled(mem, a + mem[a].nLines, b))
  }

  ghost function Recs(mem: seq<Line>, a: nat, b: nat): seq<Rec>
    decreases b - a
  {
    if a < b <= |mem| && 0 < mem[a].nLines then [RecAt(mem, a)] + Recs(mem, a + mem[a].nLines, b) else []
  }

  // Either the unread records lie in [r, w), or they lie in [r, mark) and [0, w) with a
  // wrap marker at mark.
  ghost predicate Layout(s: State) {
    && s.w < |s.mem| < TWO_TO_31 && s.r < |s.mem|
    && if s.r <= s.w then Tiled(s.mem, s.r, s.w)
       else
         && s.r <= s.mark < |s.mem| && s.mem[s.mark].nBytes == 0
         && |s.mem| < 2 * s.mark
         && Tiled(s.mem, s.r, s.mark) && Tiled(s.mem, 0, s.w)
  }

  /** The abstraction: the FIFO of unread records, parsed out of the ring's memory. */
  ghost function Unread(s: State): seq<Rec> {
    if s.r <= s.w then Recs(s.mem, s.r, s.w) else Recs(s.mem, s.r, s.mark) + Recs(s.mem, 0, s.w)
  }

  // Lines the writer may still fill from w on without touching an unread line.
  function Room(s: State): int {
    if s.r <= s.w then |s.mem| - 1 - s.w else s.r - 1 - s.w
  }

  ghost predicate WriterInv(s: State)
    requires Layout(s)
  {
    && s.cached <= Room(s)
    && match s.wpc
       case WIdle => true
       case WLoading(nb, nl) => 0 < nb && s.cached < nl
       case WMarking(nb, nl, left) => 0 < nb && 0 < nl <= left < s.r <= s.w && |s.mem| - 1 - s.w < nl
       case WJumping(nb, nl, left) => 0 < nb && 0 < nl <= left < s.r <= s.w && |s.mem| - 1 - s.w < nl
                                      && s.mem[s.w].nBytes == 0
       case WHeader(nb, nl) => 0 < nb && 0 < nl <= s.cached
       case WReady(nb, nl) => 0 < nb && 0 < nl <= s.cached
                              && s.mem[s.w].nBytes == nb && s.mem[s.w].nLines == nl
  }

  ghost predicate ReaderInv(s: State)
    requires Layout(s)
  {
    match s.rpc
    case RIdle => true
    case RCheck(wp, backlog) => s.r != s.w && (s.mem[s.r].nBytes == 0 && wp != 0 ==> 0 < s.w)
                                && (backlog == 0 <==> s.mem[s.r].nBytes == 0 && wp == 0)
    case RJumping => s.r == s.mark && 0 < s.w < s.r
    case RAtZero => s.r == 0 < s.w
    case RHolding => s.r != s.w && 0 < s.mem[s.r].nBytes
  }

  ghost predicate Inv(s: State) {
    Layout(s) && WriterInv(s) && ReaderInv(s) && s.sent == s.got + Unread(s)
  }

  // ---------------------------------------------------------------- tilings

  lemma {:induction false} TiledFrame(mem: seq<Line>, mem': seq<Line>, a: nat, b: nat)
    requires Tiled(mem, a, b) && |mem| == |mem'| && forall p :: a <= p < b ==> mem'[p] == mem[p]
    ensures Tiled(mem', a, b) && Recs(mem', a, b) == Recs(mem, a, b)
    decreases b - a
  {
    if a == b {
    } else {
      TiledFrame(mem, mem', a + mem[a].nLines, b);
      assert mem'[a + 1..a + mem[a].nLines] == mem[a + 1..a + mem[a].nLines];
    }
  }

  lemma {:induction false} TiledAppend(mem: seq<Line>, a: nat, b: nat)
    requires Tiled(mem, a, b) && b < |mem|
    requires 0 < mem[b].nBytes && 0 < mem[b].nLines && b + mem[b].nLines <= |mem|
    ensures Tiled(mem, a, b + mem[b].nLines)
    ensures Recs(mem, a, b + mem[b].nLines) == Recs(mem, a, b) + [RecAt(mem, b)]
    decreases b - a
  {
    if a < b {
      TiledAppend(mem, a + mem[a].nLines, b);
    } else {
      assert Tiled(mem, b + mem[b].nLines, b + mem[b].nLines);
    }
  }

  // ---------------------------------------------------------------- every step keeps Inv

  /** No step writes outside the ring or wraps an unsigned counter. */
  lemma EveryStepIsSafe(s: State, step: Step)
    requires Inv(s) && Enabled(s, step)
    ensures Safe(s, step)
  {
  }

  // Positions whose contents the reader still relies on, the wrap marker included.
  ghost predicate Unreleased(s: State, p: nat) {
    if s.r <= s.w then s.r <= p < s.w else s.r <= p <= s.mark || p < s.w
  }

  /** No step of either side changes a line of an unread record or the wrap marker. */
  lemma UnreadLinesAreNeverOverwritten(s: State, step: Step, p: nat)
    requires Inv(s) && Enabled(s, step) && Safe(s, step)
    requires p < |s.mem| && Unreleased(s, p)
    ensures Apply(s, step).mem[p] == s.mem[p]
  {
  }

  lemma SameLayout(s: State, s': State)
    requires Layout(s) && s'.w == s.w && s'.r == s.r && s'.mark == s.mark && |s'.mem| == |s.mem|
    requires forall p :: 0 <= p < |s.mem| && Unreleased(s, p) ==> s'.mem[p] == s.mem[p]
    ensures Layout(s') && Unread(s') == Unread(s)
  {
    if s.r <= s.w {
      TiledFrame(s.mem, s'.mem, s.r, s.w);
    } else {
      TiledFrame(s.mem, s'.mem, s.r, s.mark);
      TiledFrame(s.mem, s'.mem, 0, s.w);
    }
  }

  lemma TailOfUnread(s: State, s': State)
    requires Layout(s) && 0 < s.mem[s.w].nBytes && 0 < s.mem[s.w].nLines <= Room(s)
    requires s'.mem == s.mem && s'.r == s.r && s'.mark == s.mark && s'.w == s.w + s.mem[s.w].nLines
    ensures Layout(s') && Unread(s') == Unread(s) + [RecAt(s.mem, s.w)]
    ensures Room(s') == Room(s) - s.mem[s.w].nLines
  {
    hide Tiled, Recs, RecAt;
    if s.r <= s.w {
      TiledAppend(s.mem, s.r, s.w);
    } else {
      TiledAppend(s.mem, 0, s.w);
      var u, v, x := Recs(s.mem, s.r, s.mark), Recs(s.mem, 0, s.w), RecAt(s.mem, s.w);
      assert u + (v + [x]) == u + v + [x];
    }
  }

  lemma MoveKeepsInv(s: State)
    requires Inv(s) && Enabled(s, Move) && Safe(s, Move)
    ensures Inv(Apply(s, Move))
    ensures Unread(Apply(s, Move)) == Unread(s) + [RecAt(s.mem, s.w)]
  {
    hide Tiled;
    hide Recs;
    var s' := Apply(s, Move);
    TailOfUnread(s, s');
    assert s.got + (Unread(s) + [RecAt(s.mem, s.w)]) == s'.got + Unread(s');
  }

  lemma JumpKeepsInv(s: State)
    requires Inv(s) && Enabled(s, Jump) && Safe(s, Jump)
    ensures Inv(Apply(s, Jump)) && Unread(Apply(s, Jump)) == Unread(s)
  {
    assert Tiled(s.mem, 0, 0);
  }

  lemma HeadOfUnread(s: State, s': State)
    requires Layout(s) && s.r != s.w && 0 < s.mem[s.r].nBytes
    requires 0 < s.mem[s.r].nLines && s.r + s.mem[s.r].nLines <= |s.mem|
    requires s'.mem == s.mem && s'.w == s.w && s'.mark == s.mark && s'.r == s.r + s.mem[s.r].nLines
    ensures Layout(s') && Unread(s) == [RecAt(s.mem, s.r)] + Unread(s')
    ensures s.r <= s.w <==> s'.r <= s'.w
  {
    if s.w < s.r {
      assert s.r < s.mark;
      assert Recs(s.mem, s.r, s.mark) == [RecAt(s.mem, s.r)] + Recs(s.mem, s'.r, s.mark);
    }
  }

  lemma ReadMoveKeepsInv(s: State)
    requires Inv(s) && Enabled(s, ReadMove) && Safe(s, ReadMove)
    ensures Inv(Apply(s, ReadMove))
    ensures Unread(s) == [RecAt(s.mem, s.r)] + Unread(Apply(s, ReadMove))
  {
    hide Tiled, Recs, Unread, RecAt;
    var s' := Apply(s, ReadMove);
    HeadOfUnread(s, s');
    ReadKeepsWriterInv(s, s');
    hide Layout, WriterInv;
    assert s.got + ([RecAt(s.mem, s.r)] + Unread(s')) == s'.got + Unread(s');
  }

  lemma ReadKeepsWriterInv(s: State, s': State)
    requires Layout(s) && Layout(s') && WriterInv(s) && s.r <= s'.r && (s.r <= s.w <==> s'.r <= s'.w)
    requires s'.mem == s.mem && s'.w == s.w && s'.cached == s.cached && s'.wpc == s.wpc
    ensures WriterInv(s')
  {
    hide Tiled;
  }

  lemma JumpedReaderSeesTheSame(s: State, s': State)
    requires Layout(s) && 0 < s.w < s.r && s.mem[s.r].nBytes == 0
    requires s'.mem == s.mem && s'.w == s.w && s'.mark == s.mark && s'.r == 0
    ensures Layout(s') && s.r == s.mark && Unread(s') == Unread(s)
  {
  }

  lemma ReadJumpKeepsInv(s: State)
    requires Inv(s) && Enabled(s, ReadJump) && Safe(s, ReadJump)
    ensures Inv(Apply(s, ReadJump)) && Unread(Apply(s, ReadJump)) == Unread(s)
  {
    hide Tiled;
    hide Recs;
    JumpedReaderSeesTheSame(s, Apply(s, ReadJump));
  }

  lemma WriterStepKeepsInv(s: State, step: Step)
    requires Inv(s) && Enabled(s, step) && Safe(s, step)
    requires step.Begin? || step.Load? || step.Mark? || step.Header? || step.Put?
    requires Proper(step)
    ensures Inv(Apply(s, step)) && Unread(Apply(s, step)) == Unread(s)
  {
    WriterStepKeepsLayout(s, step);
    WriterStepKeepsPcs(s, step);
    hide Layout, Unread, WriterInv, ReaderInv;
  }

  lemma WriterStepKeepsLayout(s: State, step: Step)
    requires Inv(s) && Enabled(s, step) && Safe(s, step)
    requires step.Begin? || step.Load? || step.Mark? || step.Header? || step.Put?
    ensures var s' := Apply(s, step);
            Layout(s') && Unread(s') == Unread(s) && s'.sent == s.sent && s'.got == s.got
  {
    hide Tiled, Recs, Unread;
    SameLayout(s, Apply(s, step));
  }

  lemma WriterStepKeepsPcs(s: State, step: Step)
    requires Inv(s) && Enabled(s, step) && Safe(s, step) && Proper(step) && Layout(Apply(s, step))
    requires step.Begin? || step.Load? || step.Mark? || step.Header? || step.Put?
    ensures WriterInv(Apply(s, step)) && ReaderInv(Apply(s, step))
  {
    hide Tiled, Recs, Unread;
    match step
    case Load => LoadKeepsPcs(s);
    case _ =>
  }

  lemma LoadKeepsPcs(s: State)
    requires Inv(s) && Enabled(s, Load) && Safe(s, Load) && Layout(Apply(s, Load))
    ensures WriterInv(Apply(s, Load)) && ReaderInv(Apply(s, Load))
  {
    hide Tiled, Recs, Unread;
  }

  lemma ReaderStepKeepsInv(s: State, step: Step)
    requires Inv(s) && Enabled(s, step) && Safe(s, step)
    requires step.Fetch? || step.ReadHeader? || step.ReadHeaderAtZero?
    ensures Inv(Apply(s, step)) && Unread(Apply(s, step)) == Unread(s)
  {
    ReaderStepKeepsLayout(s, step);
    ReaderStepKeepsPcs(s, step);
    hide Layout, Unread, WriterInv, ReaderInv;
  }

  lemma ReaderStepKeepsLayout(s: State, step: Step)
    requires Inv(s) && Enabled(s, step) && Safe(s, step)
    requires step.Fetch? || step.ReadHeader? || step.ReadHeaderAtZero?
    ensures var s' := Apply(s, step);
            Layout(s') && Unread(s') == Unread(s) && s'.sent == s.sent && s'.got == s.got
  {
    hide Tiled, Recs, Unread;
    SameLayout(s, Apply(s, step));
  }

  lemma ReaderStepKeepsPcs(s: State, step: Step)
    requires Inv(s) && Enabled(s, step) && Safe(s, step) && Layout(Apply(s, step))
    requires step.Fetch? || step.ReadHeader? || step.ReadHeaderAtZero?
    ensures WriterInv(Apply(s, step)) && ReaderInv(Apply(s, step))
  {
    hide Tiled, Recs, Unread;
    NothingUnread(s);
    if s.r != s.w && s.mem[s.r].nBytes == 0 {
      ZeroHeaderIsTheMarker(s);
    }
  }

  lemma ZeroHeaderIsTheMarker(s: State)
    requires Layout(s) && s.r != s.w && s.mem[s.r].nBytes == 0
    ensures s.w < s.r == s.mark
  {
  }

  /** Nothing is unread exactly when the cursors meet, or the reader stands on the wrap
      marker and the write cursor is still 0. */
  lemma NothingUnread(s: State)
    requires Layout(s)
    ensures Unread(s) == [] <==> s.r == s.w || (s.w == 0 && s.mem[s.r].nBytes == 0)
  {
  }

  /** Each step refines one step of a FIFO: publishing appends the written record, moving
      the reader removes the head, every other step leaves the queue as it is. */
  lemma StepRefinesFifo(s: State, step: Step)
    requires Inv(s) && Enabled(s, step) && Proper(step)
    ensures Safe(s, step) && Inv(Apply(s, step))
    ensures var q, q' := Unread(s), Unread(Apply(s, step));
            if step.Move? then
              q' == q + [Rec(s.wpc.nb, s.mem[s.w].body, s.mem[s.w + 1..s.w + s.wpc.nl])]
            else if step.ReadMove? then q == [RecAt(s.mem, s.r)] + q'
            else q' == q
  {
    hide *;
    EveryStepIsSafe(s, step);
    match step
    case Move =>
      MoveKeepsInv(s);
      RecordInHand(s);
    case Jump => JumpKeepsInv(s);
    case ReadMove => ReadMoveKeepsInv(s);
    case ReadJump => ReadJumpKeepsInv(s);
    case Fetch => ReaderStepKeepsInv(s, step);
    case ReadHeader => ReaderStepKeepsInv(s, step);
    case ReadHeaderAtZero => ReaderStepKeepsInv(s, step);
    case _ => WriterStepKeepsInv(s, step);
  }

  // The record that the writer is about to publish.
  lemma RecordInHand(s: State)
    requires Inv(s) && Enabled(s, Move) && Safe(s, Move)
    ensures RecAt(s.mem, s.w) == Rec(s.wpc.nb, s.mem[s.w].body, s.mem[s.w + 1..s.w + s.wpc.nl])
  {
    hide Tiled, Recs, Unread;
  }

  // ---------------------------------------------------------------- whole runs

  // Any interleaving of steps that the program counters allow, every record having a byte.
  ghost predicate Run(states: seq<State>, steps: seq<Step>) {
    && |states| == |steps| + 1 && Init(states[0])
    && forall i {:trigger steps[i]} :: 0 <= i < |steps| ==>
         Enabled(states[i], steps[i]) && Proper(steps[i]) &&
         (Safe(states[i], steps[i]) ==> states[i + 1] == Apply(states[i], steps[i]))
  }

  lemma {:induction false} RunKeepsInv(states: seq<State>, steps: seq<Step>, i: nat)
    requires Run(states, steps) && i < |states|
    ensures Inv(states[i])
  {
    if i == 0 {
      assert Tiled(states[0].mem, 0, 0);
    } else {
      RunKeepsInv(states, steps, i - 1);
      StepRefinesFifo(states[i - 1], steps[i - 1]);
    }
  }

  /** In every state of every interleaving: the records read so far are a prefix of the
      records published, in order and unaltered; the rest are the unread ones; a record in
      the reader's hands is the next one published, length and payload; and whatever step
      comes next stays in bounds. */
  lemma EveryRunIsFifo(states: seq<State>, steps: seq<Step>, i: nat)
    requires Run(states, steps) && i < |states|
    ensures var s := states[i];
            && Layout(s) && s.sent == s.got + Unread(s)
            && (s.rpc.RHolding? ==>
                  |s.got| < |s.sent| && RecAt(s.mem, s.r) == s.sent[|s.got|])
            && (i < |steps| ==> Safe(s, steps[i]))
  {
    RunKeepsInv(states, steps, i);
    var s := states[i];
    if i < |steps| {
      EveryStepIsSafe(s, steps[i]);
    }
    if s.rpc.RHolding? {
      EveryStepIsSafe(s, ReadMove);
      ReadMoveKeepsInv(s);
    }
  }

  /** muggle_shm_ringbuf_r_fetch returns NULL only if nothing was unread when it loaded the
      write cursor, whatever the writer does meanwhile. */
  lemma FetchIsEmptyOnlyIfNothingWasUnread(states: seq<State>, steps: seq<Step>, i: nat)
    requires Run(states, steps) && i < |steps|
    requires states[i + 1].rpc.RIdle?
    ensures steps[i].Fetch? ==> |states[i].sent| == |states[i].got|
    ensures steps[i].ReadHeader? ==> states[i].rpc.backlog == 0
    ensures !steps[i].ReadHeaderAtZero?
  {
    RunKeepsInv(states, steps, i);
    var s := states[i];
    EveryStepIsSafe(s, steps[i]);
  }

  // ---------------------------------------------------------------- calls that run alone

  ghost function Do(s: State, step: Step): (s': State)
    requires Inv(s) && Enabled(s, step) && Proper(step)
    ensures Safe(s, step) && Inv(s') && s' == Apply(s, step)
  {
    StepRefinesFifo(s, step);
    Apply(s, step)
  }

  // muggle_shm_ringbuf_update_cached_remain with no step of the reader in between.
  ghost function UpdateAlone(s: State): (s': State)
    requires Inv(s) && s.wpc.WLoading?
    ensures Inv(s') && (s'.wpc.WIdle? || s'.wpc.WHeader?)
  {
    hide Inv, Safe;
    var s1 := Do(s, Load);
    if s1.wpc.WMarking? then Do(Do(s1, Mark), Jump) else s1
  }

  // muggle_shm_ringbuf_w_alloc_cachelines with no step of the reader in between.
  ghost function AllocAlone(s: State, nb: nat, nl: nat): (s': State)
    requires Inv(s) && Enabled(s, Begin(nb, nl)) && 0 < nb
    ensures Inv(s') && (s'.wpc.WIdle? || s'.wpc == WReady(nb, nl))
  {
    hide Inv;
    var s1 := Do(s, Begin(nb, nl));
    var s2 := if s1.wpc.WLoading? then UpdateAlone(s1) else s1;
    if s2.wpc.WHeader? then Do(s2, Header) else s2
  }

  function WithHeader(s: State, nb: nat, nl: nat): State
    requires s.w < |s.mem|
  {
    s.(mem := s.mem[s.w := s.mem[s.w].(nBytes := nb, nLines := nl)], wpc := WReady(nb, nl))
  }

  lemma AllocAloneIs(s: State, nb: nat, nl: nat)
    requires Inv(s) && Enabled(s, Begin(nb, nl)) && 0 < nb
    ensures Inv(s.(wpc := if s.cached < nl then WLoading(nb, nl) else WHeader(nb, nl)))
    ensures var u := if s.cached < nl then UpdateAlone(s.(wpc := WLoading(nb, nl))) else s.(wpc := WHeader(nb, nl));
            && u.w < |u.mem|
            && (u.wpc.WIdle? ==> u.cached < nl && AllocAlone(s, nb, nl) == u)
            && (!u.wpc.WIdle? ==> nl <= u.cached && AllocAlone(s, nb, nl) == WithHeader(u, nb, nl))
  {
    hide Apply;
    hide Inv;
    hide Layout;
    BeginIs(s, nb, nl);
    var s1 := Do(s, Begin(nb, nl));
    CursorFacts(s);
    if s1.wpc.WLoading? {
      var u := UpdateAlone(s1);
      UpdateFailsShort(s1);
      CursorFacts(u);
      if u.wpc.WHeader? {
        HeaderIs(u);
      }
    } else {
      HeaderIs(s1);
    }
  }

  lemma BeginIs(s: State, nb: nat, nl: nat)
    requires Inv(s) && Enabled(s, Begin(nb, nl)) && 0 < nb
    ensures Do(s, Begin(nb, nl)) == s.(wpc := if s.cached < nl then WLoading(nb, nl) else WHeader(nb, nl))
  {
    hide Inv;
  }

  lemma HeaderIs(s: State)
    requires Inv(s) && s.wpc.WHeader?
    ensures s.w < |s.mem| && Do(s, Header) == WithHeader(s, s.wpc.nb, s.wpc.nl)
  {
    CursorFacts(s);
    hide Inv;
  }

  // The result of those steps.
  function UpdateResult(s: State): State
    requires s.w < |s.mem| && s.wpc.WLoading?
  {
    var u := AfterLoad(s, s.wpc.nb, s.wpc.nl, s.r);
    if u.wpc.WMarking? then
      s.(mem := s.mem[s.w := s.mem[s.w].(nBytes := 0, nLines := 0)], mark := s.w, w := 0, cached := s.r - 1,
         wpc := WHeader(s.wpc.nb, s.wpc.nl))
    else u
  }

  lemma UpdateAloneIs(s: State)
    requires Inv(s) && s.wpc.WLoading?
    ensures s.w < |s.mem| && UpdateAlone(s) == UpdateResult(s)
  {
    hide Inv, Layout, Safe;
    CursorFacts(s);
    var s1 := Do(s, Load);
    if s1.wpc.WMarking? {
      var s2 := Do(s1, Mark);
      assert UpdateAlone(s) == Do(s2, Jump);
    }
  }

  lemma UpdateFailsShort(s: State)
    requires Inv(s) && s.wpc.WLoading?
    ensures UpdateAlone(s).wpc.WIdle? ==> UpdateAlone(s).cached < s.wpc.nl
    ensures !UpdateAlone(s).wpc.WIdle? ==> UpdateAlone(s).wpc == WHeader(s.wpc.nb, s.wpc.nl)
  {
    hide Inv, UpdateAlone;
    UpdateAloneIs(s);
    CursorFacts(s);
    hide Layout;
  }

  lemma MoveIs(s: State)
    requires Inv(s) && s.wpc.WReady?
    ensures s.w < |s.mem| && s.w + s.wpc.nl < |s.mem| && s.mem[s.w].nLines <= s.cached
    ensures Do(s, Move) ==
            s.(sent := s.sent + [Rec(s.wpc.nb, s.mem[s.w].body, s.mem[s.w + 1..s.w + s.wpc.nl])],
               cached := s.cached - s.mem[s.w].nLines, w := s.w + s.mem[s.w].nLines, wpc := WIdle)
  {
    hide Inv, Layout, Unread, Safe;
    CursorFacts(s);
  }

  // muggle_shm_ringbuf_r_fetch with no step of the writer in between.
  ghost function FetchAlone(s: State): (s': State)
    requires Inv(s) && Enabled(s, Fetch)
    ensures Inv(s') && (s'.rpc.RIdle? || s'.rpc.RHolding?)
  {
    hide Inv, Safe;
    var s1 := Do(s, Fetch);
    var s2 := if s1.rpc.RCheck? then Do(s1, ReadHeader) else s1;
    if s2.rpc.RJumping? then Do(Do(s2, ReadJump), ReadHeaderAtZero) else s2
  }

  // The result of those steps, in any state whose cursors are in bounds.
  function FetchResult(s: State): State
    requires s.w < |s.mem| && s.r < |s.mem|
  {
    if s.w == s.r then s.(rpc := RIdle)
    else if s.mem[s.r].nBytes != 0 then s.(rpc := RHolding)
    else if s.w == 0 then s.(rpc := RIdle)
    else s.(r := 0, rpc := if s.mem[0].nBytes != 0 then RHolding else RIdle)
  }

  lemma FetchAloneIs(s: State)
    requires Inv(s) && Enabled(s, Fetch)
    ensures s.w < |s.mem| && s.r < |s.mem|
    ensures FetchAlone(s) == FetchResult(s)
  {
    hide Inv;
    hide Layout;
    CursorFacts(s);
    var s1 := Do(s, Fetch);
    if s1.rpc.RCheck? {
      var s2 := Do(s1, ReadHeader);
      if s2.rpc.RJumping? {
        var s3 := Do(s2, ReadJump);
        assert FetchAlone(s) == Do(s3, ReadHeaderAtZero);
      }
    }
  }

  /** A fetch that runs alone hands out the head of the queue, and NULL exactly when the
      queue is empty. */
  lemma FetchTakesTheHead(s: State)
    requires Inv(s) && Enabled(s, Fetch)
    ensures var s' := FetchAlone(s);
            && Unread(s') == Unread(s)
            && (s'.rpc.RHolding? <==> Unread(s) != [])
            && (Unread(s) != [] ==> s'.r < |s'.mem| && RecAt(s'.mem, s'.r) == Unread(s)[0]
                                    && Unread(s)[0].nBytes == s'.mem[s'.r].nBytes)
  {
    FetchAloneIs(s);
    NothingUnread(s);
    hide FetchAlone;
    hide Tiled;
    hide Recs;
    var s' := FetchAlone(s);
    CursorFacts(s');
    if s.r != s'.r {
      JumpedReaderSeesTheSame(s, s');
    }
    if s'.rpc.RHolding? {
      HeadOfUnread(s', s'.(r := s'.r + s'.mem[s'.r].nLines));
    }
  }

  /** Whenever nothing is unread, an allocation of up to N/2 - 1 lines succeeds at once,
      from every reachable cursor position and cached value. */
  lemma ProgressBound(s: State, nb: nat, nl: nat)
    requires Inv(s) && Enabled(s, Begin(nb, nl)) && 0 < nb
    requires Unread(s) == [] && nl <= |s.mem| / 2 - 1
    ensures AllocAlone(s, nb, nl).wpc == WReady(nb, nl)
  {
    hide Inv, Layout, Unread, UpdateAlone, AllocAlone;
    RoomWhenEmpty(s);
    AllocAloneIs(s, nb, nl);
    if s.cached < nl {
      UpdateAloneIs(s.(wpc := WLoading(nb, nl)));
    }
  }

  // With nothing unread, the cursors are equal, or the reader stands on a marker in the
  // second half and the writer at 0.
  lemma RoomWhenEmpty(s: State)
    requires Inv(s) && Unread(s) == []
    ensures s.w < |s.mem| && s.r < |s.mem| && (s.r == s.w || (s.w == 0 && |s.mem| < 2 * s.r))
  {
    NothingUnread(s);
    if s.r != s.w { ZeroHeaderIsTheMarker(s); }
    hide Tiled, Recs, Unread;
  }

  ghost predicate Reachable(s: State) {
    exists states, steps :: Run(states, steps) && states[|steps|] == s
  }

  lemma ReachStep(s: State, step: Step)
    requires Reachable(s) && Enabled(s, step) && Proper(step)
    ensures Inv(s) && Reachable(Do(s, step))
  {
    hide Inv, Apply, Safe, Enabled, Proper, Init, Do;
    var states, steps :| Run(states, steps) && states[|steps|] == s;
    RunKeepsInv(states, steps, |steps|);
    var states', steps' := states + [Do(s, step)], steps + [step];
    forall i | 0 <= i < |steps'|
      ensures && Enabled(states'[i], steps'[i]) && Proper(steps'[i])
              && (Safe(states'[i], steps'[i]) ==> states'[i + 1] == Apply(states'[i], steps'[i]))
    {
      if i < |steps| {
        assert steps'[i] == steps[i] && states'[i] == states[i] && states'[i + 1] == states[i + 1];
      }
    }
    assert Run(states', steps') && states'[|steps'|] == Do(s, step);
  }

  // What the rest needs of Inv, with the tilings kept out of sight.
  lemma CursorFacts(s: State)
    requires Inv(s)
    ensures Layout(s) && s.w < |s.mem| < TWO_TO_31 && s.r < |s.mem| && s.cached <= Room(s)
    ensures s.wpc.WReady? ==> s.mem[s.w].nLines == s.wpc.nl <= s.cached && s.w + s.wpc.nl < |s.mem|
    ensures s.wpc.WHeader? ==> s.wpc.nl <= s.cached
    ensures s.wpc.WLoading? ==> s.cached < s.wpc.nl
    ensures s.r == s.w ==> Unread(s) == []
  {
  }

  lemma OneRecordIn(k: nat) returns (s: State)
    requires 1 <= k && 2 * k < TWO_TO_31
    ensures Reachable(s) && |s.mem| == 2 * k && s.wpc == WIdle && s.rpc == RIdle
    ensures s.w == k && s.r == 0 && s.cached == k - 1 && s.mem[0].nBytes == 1 && s.mem[0].nLines == k
  {
    var s0 := State(seq(2 * k, _ => Line(0, 0, 0)), 0, 0, 2 * k - 1, WIdle, RIdle, 0, [], []);
    InitIsReachable(s0);
    hide Inv, Reachable, Safe, Init;
    ReachStep(s0, Begin(1, k));
    BeginIs(s0, 1, k);
    var s1 := Do(s0, Begin(1, k));
    ReachStep(s1, Header);
    HeaderIs(s1);
    var s2 := Do(s1, Header);
    ReachStep(s2, Move);
    MoveIs(s2);
    hide Do;
    s := Do(s2, Move);
  }

  lemma InitIsReachable(s: State)
    requires Init(s)
    ensures Reachable(s)
  {
    var none: seq<Step> := [];
    assert Run([s], none) && [s][|none|] == s;
  }

  // After one record of k lines has been written and read in a ring of 2k lines.
  lemma OneRecordThrough(k: nat) returns (s: State)
    requires 1 <= k && 2 * k < TWO_TO_31
    ensures Reachable(s) && Inv(s) && |s.mem| == 2 * k && s.wpc == WIdle
    ensures s.w == k && s.r == k && s.cached == k - 1
  {
    hide Inv;
    hide Reachable;
    var s3 := OneRecordIn(k);
    ReachStep(s3, Fetch);
    var s4 := Do(s3, Fetch);
    ReachStep(s4, ReadHeader);
    var s5 := Do(s4, ReadHeader);
    ReachStep(s5, ReadMove);
    s := Do(s5, ReadMove);
  }

  /** The bound is exact: in a ring of any even size 2k there is a reachable state with
      nothing unread in which an allocation of k lines fails. */
  lemma ProgressBoundIsTight(k: nat)
    requires 1 <= k && 2 * k < TWO_TO_31
    ensures exists s :: Reachable(s) && |s.mem| == 2 * k && Inv(s) && Unread(s) == []
                        && Enabled(s, Begin(1, k)) && AllocAlone(s, 1, k).wpc.WIdle?
  {
    hide Reachable, Inv, Layout, Unread, UpdateAlone, AllocAlone;
    var s := OneRecordThrough(k);
    CursorFacts(s);
    AllocAloneIs(s, 1, k);
    UpdateAloneIs(s.(wpc := WLoading(1, k)));
  }

  // ---------------------------------------------------------------- the ring as an object

  lemma MoveFacts(s: State)
    requires Inv(s) && Enabled(s, Move)
    ensures s.wpc.WReady? && s.w < |s.mem| && s.mem[s.w].nLines <= s.cached
    ensures var s' := Do(s, Move);
            && s' == s.(sent := s'.sent, cached := s.cached - s.mem[s.w].nLines, w := s.w + s.mem[s.w].nLines,
                        wpc := WIdle)
            && Inv(s') && s'.sent != [] && Unread(s') == Unread(s) + [s'.sent[|s'.sent| - 1]]
  {
    hide Inv, Unread, Layout, RecAt;
    StepRefinesFifo(s, Move);
    MoveIs(s);
  }

  lemma ReadMoveFacts(s: State)
    requires Inv(s) && Enabled(s, ReadMove)
    ensures s.rpc.RHolding? && s.r < |s.mem|
    ensures var s' := Do(s, ReadMove);
            && s' == s.(got := s'.got, r := s.r + s.mem[s.r].nLines, rpc := RIdle)
            && Inv(s') && s'.got != [] && Unread(s) == [s'.got[|s'.got| - 1]] + Unread(s')
  {
    hide Inv, Unread, Layout, RecAt;
    CursorFacts(s);
    StepRefinesFifo(s, ReadMove);
  }

  const CACHE_LINE: nat := 64

  // MUGGLE_ROUND_UP_POW_OF_2_MUL for the size of a cache line.
  function RoundUp(n: nat): nat { (n + CACHE_LINE - 1) / CACHE_LINE * CACHE_LINE }

  // The lines and the bytes that muggle_shm_ringbuf_open arrives at, in 32 bits.
  function OpenedLines(nBytes: nat): nat {
    NextPowOf2(RoundUp(nBytes) % TWO_TO_32 / CACHE_LINE)
  }

  function OpenedBytes(nBytes: nat): nat { OpenedLines(nBytes) * CACHE_LINE % TWO_TO_32 }

  lemma Pow2Of26()
    ensures Pow2(25) == 0x200_0000 && Pow2(26) == 0x400_0000
  {
    assert Pow2(8) == 256;
    assert Pow2(16) == 65536;
    assert Pow2(25) == 0x200_0000;
  }

  lemma RoundedUp(nBytes: nat)
    ensures nBytes <= RoundUp(nBytes) < nBytes + CACHE_LINE && RoundUp(nBytes) % CACHE_LINE == 0
  {
  }

  lemma SmallOpen(nBytes: nat)
    requires 0 < nBytes <= TWO_TO_31
    ensures OpenedLines(nBytes) == LeastPow2(RoundUp(nBytes) / CACHE_LINE)
    ensures nBytes <= OpenedLines(nBytes) * CACHE_LINE <= TWO_TO_31
    ensures Power(OpenedLines(nBytes))
    ensures OpenedLines(nBytes) == 1 || OpenedLines(nBytes) / 2 * CACHE_LINE < nBytes
  {
    hide RoundUp, LeastPow2, NextPowOf2, Pow2;
    RoundedUp(nBytes);
    Pow2Of26();
    var n := RoundUp(nBytes) / CACHE_LINE;
    assert RoundUp(nBytes) == n * CACHE_LINE;
    NextPowOf2IsLeast(n);
    LeastPow2Is(n, 25);
    LeastPow2IsTight(n);
  }

  lemma LargeOpen(nBytes: nat)
    requires TWO_TO_31 < nBytes < TWO_TO_32
    ensures OpenedBytes(nBytes) == 0
  {
    hide RoundUp, LeastPow2, NextPowOf2, Pow2;
    RoundedUp(nBytes);
    Pow2Of26();
    var n := RoundUp(nBytes) / CACHE_LINE;
    assert RoundUp(nBytes) == n * CACHE_LINE;
    if n < Pow2(26) {
      LeastPow2Between(n, 25);
      NextPowOf2IsLeast(n);
    } else {
      NoLines();
    }
  }

  lemma NoLines()
    ensures NextPowOf2(0) == 0
  {
  }

  /** The data area that opening arrives at holds the bytes asked for, if and only if they are
      no more than 2^31; beyond, the 32-bit arithmetic wraps to an area of no bytes. */
  lemma OpenHoldsIff(nBytes: nat)
    requires 0 < nBytes < TWO_TO_32
    ensures nBytes <= OpenedBytes(nBytes) <==> nBytes <= TWO_TO_31
    ensures nBytes <= TWO_TO_31 ==> OpenedBytes(nBytes) == OpenedLines(nBytes) * CACHE_LINE
  {
    hide OpenedLines, Power;
    if nBytes <= TWO_TO_31 { SmallOpen(nBytes); } else { LargeOpen(nBytes); }
  }

  /** The ring with its fields updated in place.  Each method is the C function of the same
      name run without interference; its new state is the one its atomic steps lead to.
      The ghost fields are the program counters and the history. */
  class RingBuffer {
    const data: array<Line>
    var writeCursor: nat
    var cachedRemain: nat
    var readCursor: nat
    var cachedWHdr: nat
    var cachedRHdr: nat
    ghost var wpc: WriterPc
    ghost var rpc: ReaderPc
    ghost var mark: nat
    ghost var sent: seq<Rec>
    ghost var got: seq<Rec>

    ghost function View(): State
      reads this, data
    {
      State(data[..], writeCursor, readCursor, cachedRemain, wpc, rpc, mark, sent, got)
    }

    ghost predicate Valid()
      reads this, data
    {
      && Inv(View())
      && (wpc.WReady? ==> cachedWHdr == writeCursor)
      && (rpc.RHolding? ==> cachedRHdr == readCursor)
    }

    constructor (nCacheline: nat)
      requires 1 <= nCacheline < TWO_TO_31
      ensures Valid() && fresh(data) && Init(View()) && data.Length == nCacheline
    {
      data := new Line[nCacheline](_ => Line(0, 0, 0));
      writeCursor, readCursor, cachedRemain, cachedWHdr, cachedRHdr := 0, 0, nCacheline - 1, 0, 0;
      wpc, rpc, mark, sent, got := WIdle, RIdle, 0, [], [];
      new;
      assert Tiled(data[..], 0, 0);
    }

    /** muggle_shm_ringbuf_open: the bytes asked for, rounded up to cache lines of 64 bytes and
        their number to a power of two.  Above 2^31 bytes there is no ring (OpenHoldsIff). */
    static method Open(nBytes: nat) returns (ring: RingBuffer)
      requires 0 < nBytes <= TWO_TO_31
      ensures fresh(ring) && fresh(ring.data) && ring.Valid() && Init(ring.View())
      ensures ring.data.Length == OpenedLines(nBytes) && Power(ring.data.Length)
      ensures nBytes <= ring.data.Length * CACHE_LINE
      ensures ring.data.Length == 1 || ring.data.Length / 2 * CACHE_LINE < nBytes
    {
      hide OpenedLines;
      SmallOpen(nBytes);
      ring := new RingBuffer(OpenedLines(nBytes));
    }

    method UpdateCachedRemain(required: nat)
      requires Valid() && wpc.WLoading? && wpc.nl == required
      modifies this, data
      ensures View() == UpdateAlone(old(View())) && Valid()
    {
      hide Inv, Layout, UpdateAlone, Unread;
      ghost var s := View();
      CursorFacts(s);
      UpdateAloneIs(s);
      ghost var s' := UpdateAlone(s);
      var rPos := readCursor;
      if rPos > writeCursor {
        cachedRemain := rPos - writeCursor - 1;
      } else {
        var rightRemain := data.Length - writeCursor - 1;
        var leftRemain: int := rPos - 1;
        if rightRemain >= required {
          cachedRemain := rightRemain;
        } else if leftRemain >= required {
          data[writeCursor] := data[writeCursor].(nBytes := 0, nLines := 0);
          writeCursor := 0;
          cachedRemain := leftRemain;
        }
      }
      wpc, mark := s'.wpc, s'.mark;
      assert View() == s';
    }

    method AllocCachelines(nBytes: nat, nCacheline: nat) returns (pos: Option<nat>)
      requires Valid() && Enabled(View(), Begin(nBytes, nCacheline)) && 0 < nBytes
      modifies this, data
      ensures View() == AllocAlone(old(View()), nBytes, nCacheline) && Valid()
      ensures pos == if wpc.WReady? then Some(writeCursor) else None
    {
      hide Inv, AllocAlone, UpdateAlone, Enabled, Apply, WithHeader;
      ghost var s := View();
      AllocAloneIs(s, nBytes, nCacheline);
      ghost var s1 := s.(wpc := if s.cached < nCacheline then WLoading(nBytes, nCacheline)
                                else WHeader(nBytes, nCacheline));
      wpc := s1.wpc;
      assert View() == s1;
      if cachedRemain < nCacheline {
        UpdateCachedRemain(nCacheline);
        assert View() == UpdateAlone(s1);
        if cachedRemain < nCacheline {
          return None;
        }
      }
      WriteHeader(nBytes, nCacheline);
      pos := Some(writeCursor);
    }

    method WriteHeader(nBytes: nat, nCacheline: nat)
      requires writeCursor < data.Length
      modifies this`cachedWHdr, this`wpc, data
      ensures View() == WithHeader(old(View()), nBytes, nCacheline) && wpc.WReady? && cachedWHdr == writeCursor
    {
      ghost var u := View();
      data[writeCursor] := data[writeCursor].(nBytes := nBytes, nLines := nCacheline);
      cachedWHdr := writeCursor;
      wpc := WReady(nBytes, nCacheline);
      assert View() == WithHeader(u, nBytes, nCacheline);
    }

    method WMove()
      requires Valid() && Enabled(View(), Move)
      modifies this
      ensures View() == Do(old(View()), Move) && Valid()
      ensures sent != [] && Unread(View()) == old(Unread(View())) + [sent[|sent| - 1]]
    {
      hide Inv, Unread, Apply, Enabled, Safe, Do;
      ghost var s := View();
      MoveFacts(s);
      ghost var s' := Do(s, Move);
      var n := data[cachedWHdr].nLines;
      cachedRemain := cachedRemain - n;
      writeCursor := writeCursor + n;
      sent, wpc := s'.sent, WIdle;
    }

    method Fetch() returns (nBytes: Option<nat>)
      requires Valid() && Enabled(View(), Step.Fetch)
      modifies this
      ensures View() == FetchAlone(old(View())) && Valid()
      ensures nBytes == if old(Unread(View())) == [] then None else Some(old(Unread(View()))[0].nBytes)
    {
      hide Inv, Unread, FetchAlone, Layout;
      ghost var s := View();
      FetchTakesTheHead(s);
      FetchAloneIs(s);
      rpc := FetchAlone(s).rpc;
      var wPos := writeCursor;
      if wPos == readCursor {
        return None;
      }
      cachedRHdr := readCursor;
      if data[cachedRHdr].nBytes != 0 {
        return Some(data[cachedRHdr].nBytes);
      }
      if wPos == 0 {
        return None;
      }
      readCursor := 0;
      cachedRHdr := readCursor;
      if data[cachedRHdr].nBytes != 0 {
        return Some(data[cachedRHdr].nBytes);
      }
      return None;
    }

    method RMove()
      requires Valid() && Enabled(View(), ReadMove)
      modifies this
      ensures View() == Do(old(View()), ReadMove) && Valid()
      ensures got != [] && old(Unread(View())) == [got[|got| - 1]] + Unread(View())
    {
      hide Inv, Unread, Apply, Enabled, Safe, Do;
      ghost var s := View();
      ReadMoveFacts(s);
      ghost var s' := Do(s, ReadMove);
      var n := data[cachedRHdr].nLines;
      readCursor := readCursor + n;
      got, rpc := s'.got, RIdle;
    }
  }
}
