/**
 * The MI dispatcher and the mask configuration as values: which writes and
 * callback calls one run of the MI handler performs for given register
 * contents and callback lists, and which writes each set-interrupt call
 * performs.
 */
module Dispatch {
  import opened Hardware
  import opened Callbacks

  /** The write that acknowledges a driven source's interrupt: AI status
      cleared, VI current line rewritten with the value read from it, PI
      status given the clear bit, MI mode given the DP clear bit. */
  function AckWrite(s: Source, regs: Regs): (e: Event)
    requires Driven(s)
    ensures !e.Call? && !e.CpuIeWrite? && !e.MiMaskWrite?
  {
    if s == AI then AiStatusWrite(0)
    else if s == VI then ViCurLineWrite(regs.viCurLine)
    else if s == PI then PiStatusWrite(PiClearInterrupt)
    else MiModeWrite(MiModeClearDp)
  }

  /** What servicing one source does in a run of the handler: if its bit is
      both pending and unmasked, acknowledge it and then call its list. */
  function Service(s: Source, regs: Regs, cbs: seq<Callback>): (r: seq<Event>)
    requires Driven(s)
    ensures r != [] <==> Raised(regs.miIntr, s) && Raised(regs.miMask, s)
    ensures r != [] ==> r[0] == AckWrite(s, regs) && |r| <= 1 + |cbs|
    ensures forall i :: 1 <= i < |r| ==> r[i].Call?
  {
    InvocationsMembers(cbs);
    if Raised(regs.miIntr, s) && Raised(regs.miMask, s) then [AckWrite(s, regs)] + Invocations(cbs)
    else []
  }

  /** One run of the MI handler: AI, VI, PI, DP in that order (SP and SI are
      not handled), each source's callbacks finishing before the next source
      is looked at. */
  function MIEvents(regs: Regs, ai: seq<Callback>, vi: seq<Callback>,
                    pi: seq<Callback>, dp: seq<Callback>): (r: seq<Event>)
    ensures r != [] ==> exists s :: Driven(s) && r[0] == AckWrite(s, regs)
    ensures |r| <= 4 + |ai| + |vi| + |pi| + |dp|
  {
    Service(AI, regs, ai) + Service(VI, regs, vi) + Service(PI, regs, pi) + Service(DP, regs, dp)
  }

  lemma {:induction false} NoAckAmongCalls(cbs: seq<Callback>, e: Event)
    requires !e.Call?
    ensures multiset(Invocations(cbs))[e] == 0
  {
    InvocationsMembers(cbs);
    assert e !in Invocations(cbs);
  }

  lemma ServiceAckCount(t: Source, s: Source, regs: Regs, cbs: seq<Callback>)
    requires Driven(t) && Driven(s)
    ensures multiset(Service(t, regs, cbs))[AckWrite(s, regs)] ==
            if t == s && Raised(regs.miIntr, s) && Raised(regs.miMask, s) then 1 else 0
  {
    NoAckAmongCalls(cbs, AckWrite(s, regs));
  }

  /** In one run of the handler a driven source is acknowledged exactly once
      if it is pending and unmasked, and not at all otherwise. */
  lemma AckOncePerRun(regs: Regs, ai: seq<Callback>, vi: seq<Callback>,
                      pi: seq<Callback>, dp: seq<Callback>, s: Source)
    requires Driven(s)
    ensures multiset(MIEvents(regs, ai, vi, pi, dp))[AckWrite(s, regs)] ==
            if Raised(regs.miIntr, s) && Raised(regs.miMask, s) then 1 else 0
  {
    ServiceAckCount(AI, s, regs, ai);
    ServiceAckCount(VI, s, regs, vi);
    ServiceAckCount(PI, s, regs, pi);
    ServiceAckCount(DP, s, regs, dp);
  }

  /** When no driven source is both pending and unmasked (for instance only
      SP or SI interrupts), the handler writes nothing and calls nothing. */
  lemma OnlyUndrivenIsSilent(regs: Regs, ai: seq<Callback>, vi: seq<Callback>,
                             pi: seq<Callback>, dp: seq<Callback>)
    requires (regs.miIntr & regs.miMask) & 0x3C == 0
    ensures MIEvents(regs, ai, vi, pi, dp) == []
  {
    RaisedInPending(regs.miIntr, regs.miMask, AI);
    RaisedInPending(regs.miIntr, regs.miMask, VI);
    RaisedInPending(regs.miIntr, regs.miMask, PI);
    RaisedInPending(regs.miIntr, regs.miMask, DP);
  }

  /** AI and PI pending, only AI unmasked: AI is acknowledged once and its
      callbacks run; nothing of PI happens. */
  lemma MaskedSourceNotServiced(curLine: bv32, ai: seq<Callback>, vi: seq<Callback>,
                                pi: seq<Callback>, dp: seq<Callback>)
    ensures MIEvents(Regs(IntrBit(AI) | IntrBit(PI), IntrBit(AI), curLine), ai, vi, pi, dp)
            == [AiStatusWrite(0)] + Invocations(ai)
  {
  }

  /** The writes of set_AI/VI/PI/DP_interrupt: exactly one command word to
      the MI mask register, the set word when activating and the clear word
      otherwise; only activating VI also writes its trigger line, and that
      write comes after the mask write. */
  function SetInterruptWrites(s: Source, active: bool, line: bv32): (r: seq<Event>)
    requires Driven(s)
    ensures 1 <= |r| <= 2 && r[0] == MiMaskWrite(MaskCommand(s, active))
    ensures forall i :: 1 <= i < |r| ==> !r[i].MiMaskWrite?
    ensures |r| == 2 <==> s == VI && active
    ensures |r| == 2 ==> r[1] == ViVIntWrite(line)
  {
    [MiMaskWrite(MaskCommand(s, active))] + if s == VI && active then [ViVIntWrite(line)] else []
  }

  /** Arming a source through its set-interrupt call and then raising it
      makes the next handler run acknowledge it and run its callbacks;
      disarming it makes the handler ignore it. */
  lemma ArmedSourceIsServiced(s: Source, active: bool, intr: bv32, mask: bv32, newMask: bv32,
                              line: bv32, curLine: bv32, cbs: seq<Callback>)
    requires Driven(s) && Raised(intr, s)
    requires MaskWritten(mask, SetInterruptWrites(s, active, line)[0].command, newMask)
    ensures Service(s, Regs(intr, newMask, curLine), cbs) ==
            if active then [AckWrite(s, Regs(intr, newMask, curLine))] + Invocations(cbs) else []
  {
    MaskCommandEffect(mask, s, active, s);
  }
}
