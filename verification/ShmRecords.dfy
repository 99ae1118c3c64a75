/** What the writer of the shared-memory ring asks for and writes (muggle/c/sync/shm_ring_buffer.c)
    is what is published, in every run; and when a request is granted. */
module ShmRecords {
  import opened ShmRing

  // ---------------------------------------------------------------- the request

  // Request j is the writer's last before i.
  ghost predicate LastRequest(steps: seq<Step>, nb: nat, nl: nat, j: nat, i: nat) {
    && j < i <= |steps| && steps[j] == Begin(nb, nl)
    && forall x :: j < x < i ==> !steps[x].Begin?
  }

  // Where a writer stands that asked for nl lines for nb bytes.
  predicate InRequest(pc: WriterPc, nb: nat, nl: nat) {
    pc.WIdle? || (pc.nb == nb && pc.nl == nl)
  }

  lemma OneStep(states: seq<State>, steps: seq<Step>, i: nat)
    requires Run(states, steps) && i < |steps|
    ensures i + 1 < |states| && Inv(states[i]) && Enabled(states[i], steps[i]) && Safe(states[i], steps[i])
    ensures states[i + 1] == Apply(states[i], steps[i])
  {
    hide Inv, Enabled, Safe, Apply;
    RunKeepsInv(states, steps, i);
    StepRefinesFifo(states[i], steps[i]);
  }

  lemma StepKeepsRequest(s: State, step: Step, nb: nat, nl: nat)
    requires Enabled(s, step) && Safe(s, step)
    ensures step == Begin(nb, nl) ==> InRequest(Apply(s, step).wpc, nb, nl)
    ensures !step.Begin? && InRequest(s.wpc, nb, nl) ==> InRequest(Apply(s, step).wpc, nb, nl)
  {
  }

  lemma {:induction false} RequestGoesOn(states: seq<State>, steps: seq<Step>, nb: nat, nl: nat, j: nat, i: nat)
    requires Run(states, steps) && LastRequest(steps, nb, nl, j, i)
    ensures i < |states| && InRequest(states[i].wpc, nb, nl)
    decreases i
  {
    hide Run, Inv, Enabled, Safe, Apply, InRequest;
    OneStep(states, steps, i - 1);
    StepKeepsRequest(states[i - 1], steps[i - 1], nb, nl);
    if i == j + 1 {
    } else {
      RequestGoesOn(states, steps, nb, nl, j, i - 1);
    }
  }

  // ---------------------------------------------------------------- the payload

  // The last thing written into line k of the record in hand, after its request, was line.
  ghost predicate LastPut(steps: seq<Step>, k: nat, line: Line, p: nat, i: nat) {
    && p < i <= |steps| && steps[p] == Put(k, line)
    && forall x :: p < x < i ==> !(steps[x].Begin? || steps[x].Move? || (steps[x].Put? && steps[x].k == k))
  }

  // Line k of the record in hand holds line; of the first line the caller has the body only.
  predicate Holds(s: State, k: nat, line: Line) {
    && s.wpc.WReady? && s.w + k < |s.mem|
    && if k == 0 then s.mem[s.w].body == line.body else s.mem[s.w + k] == line
  }

  lemma StepKeepsLine(s: State, step: Step, k: nat, line: Line)
    requires Enabled(s, step) && Safe(s, step)
    ensures step == Put(k, line) ==> Holds(Apply(s, step), k, line)
    ensures Holds(s, k, line) && !step.Begin? && !step.Move? && !(step.Put? && step.k == k) ==>
              Holds(Apply(s, step), k, line)
  {
  }

  lemma {:induction false} LineStays(states: seq<State>, steps: seq<Step>, k: nat, line: Line, p: nat, i: nat)
    requires Run(states, steps) && LastPut(steps, k, line, p, i)
    ensures i < |states| && Holds(states[i], k, line)
    decreases i
  {
    hide Run, Inv, Enabled, Safe, Apply, Holds;
    OneStep(states, steps, i - 1);
    StepKeepsLine(states[i - 1], steps[i - 1], k, line);
    if i == p + 1 {
    } else {
      LineStays(states, steps, k, line, p, i - 1);
    }
  }

  /** In every run, a record is published with the length and the number of lines that were asked
      for, and with what was last written into each of its lines. */
  lemma WrittenIsPublished(states: seq<State>, steps: seq<Step>, nb: nat, nl: nat, j: nat, i: nat)
    requires Run(states, steps) && LastRequest(steps, nb, nl, j, i) && i < |steps| && steps[i] == Move
    ensures i + 1 < |states| && |states[i + 1].sent| == |states[i].sent| + 1
    ensures states[i + 1].sent[..|states[i].sent|] == states[i].sent
    ensures var rec := states[i + 1].sent[|states[i].sent|];
            && rec.nBytes == nb && |rec.rest| == nl - 1
            && (forall line, p :: LastPut(steps, 0, line, p, i) ==> rec.first == line.body)
            && (forall k, line, p :: 0 < k < nl && LastPut(steps, k, line, p, i) ==> rec.rest[k - 1] == line)
  {
    hide Run, Inv, LastRequest, LastPut;
    OneStep(states, steps, i);
    RequestGoesOn(states, steps, nb, nl, j, i);
    var s, rec := states[i], states[i + 1].sent[|states[i].sent|];
    forall line, p | LastPut(steps, 0, line, p, i) ensures rec.first == line.body {
      LineStays(states, steps, 0, line, p, i);
    }
    forall k: nat, line, p | 0 < k < nl && LastPut(steps, k, line, p, i) ensures rec.rest[k - 1] == line {
      LineStays(states, steps, k, line, p, i);
    }
  }

  // ---------------------------------------------------------------- when a request is granted

  /** Without interference of the reader a request is granted if and only if the lines fit in
      front of the writer, or before the reader when that stands behind the writer; whatever the
      cached free space says. */
  lemma GrantedIffFits(s: State, nb: nat, nl: nat)
    requires Inv(s) && Enabled(s, Begin(nb, nl)) && 0 < nb
    ensures var u := AllocAlone(s, nb, nl);
            && (u.wpc == WReady(nb, nl) || u.wpc == WIdle)
            && (u.wpc == WReady(nb, nl) <==>
                  if s.w < s.r then s.w + nl < s.r else s.w + nl < |s.mem| || nl < s.r)
  {
    hide Inv, Layout, Unread, UpdateAlone, AllocAlone;
    CursorFacts(s);
    AllocAloneIs(s, nb, nl);
    if s.cached < nl {
      UpdateAloneIs(s.(wpc := WLoading(nb, nl)));
    }
  }
}
