/**
 * The N64 hardware seen by the interrupt controller, abstracted as values:
 * the interrupt sources, the bit layout of the MIPS interface (MI) interrupt
 * and mask registers, the command words written to the MI mask register, the
 * registers the dispatcher reads, and the events (register writes, CPU
 * interrupt-enable writes, callback invocations) that the controller emits.
 */
module Hardware {

  /** The interrupt sources. SP..DP are wired through the MI; TI is the
      timer interrupt raised by the r4300 CPU itself. */
  datatype Source = SP | SI | AI | VI | PI | DP | TI

  /** Sources that have a bit in the MI interrupt and mask registers. */
  predicate OnMi(s: Source) {
    s != TI
  }

  /** Sources the MI dispatcher acknowledges and runs callbacks for
      (SP and SI are left unhandled by the driver). */
  predicate Driven(s: Source) {
    s == AI || s == VI || s == PI || s == DP
  }

  /** Sources that own a callback list (a register/unregister pair exists). */
  predicate HasHandlers(s: Source) {
    Driven(s) || s == TI
  }

  /** The source's bit in MI intr and MI mask (MI_INTR_* / MI_MASK_*):
      exactly one bit, among the six lowest. */
  function IntrBit(s: Source): (b: bv32)
    requires OnMi(s)
    ensures b != 0 && b & (b - 1) == 0 && b & 0x3F == b
  {
    match s
    case SP => 0x01
    case SI => 0x02
    case AI => 0x04
    case VI => 0x08
    case PI => 0x10
    case DP => 0x20
  }

  /** The command word that sets (active) or clears the source's mask bit
      (MI_MASK_SET_* / MI_MASK_CLR_*): a single bit, at an odd position for
      "set" and an even one for "clear". */
  function MaskCommand(s: Source, active: bool): (cmd: bv32)
    requires OnMi(s)
    ensures cmd != 0 && cmd & (cmd - 1) == 0
    ensures cmd & (if active then 0xAAA else 0x555) == cmd
  {
    match s
    case SP => if active then 0x0002 else 0x0001
    case SI => if active then 0x0008 else 0x0004
    case AI => if active then 0x0020 else 0x0010
    case VI => if active then 0x0080 else 0x0040
    case PI => if active then 0x0200 else 0x0100
    case DP => if active then 0x0800 else 0x0400
  }

  /** The "clear and mask everything" word written at initialisation. */
  const ClearAllMasks: bv32 :=
    MaskCommand(SP, false) | MaskCommand(SI, false) | MaskCommand(AI, false) |
    MaskCommand(VI, false) | MaskCommand(PI, false) | MaskCommand(DP, false)

  /** Value written to the PI status register to clear its interrupt. */
  const PiClearInterrupt: bv32 := 1 << 1

  /** Value written to the MI mode register to clear the DP interrupt. */
  const MiModeClearDp: bv32 := 0x0800

  /** The register values the MI dispatcher reads: MI intr, MI mask and the
      VI current line (read back and rewritten as the VI acknowledgement).
      The driver reads the current line only when it reaches the VI block,
      after the AI block has run; the model takes it with the other two on
      handler entry. The value written does not matter to the hardware: any
      write to that register acknowledges the VI interrupt. */
  datatype Regs = Regs(miIntr: bv32, miMask: bv32, viCurLine: bv32)

  /** One observable effect, in the order the controller performs them. */
  datatype Event =
    | MiMaskWrite(command: bv32)
    | MiModeWrite(mode: bv32)
    | AiStatusWrite(status: bv32)
    | ViCurLineWrite(line: bv32)
    | ViVIntWrite(vInt: bv32)
    | PiStatusWrite(status: bv32)
    | CpuIeWrite(enabled: bool)
    | Call(fn: nat)

  /** Whether `status` has the source's bit set. */
  predicate Raised(status: bv32, s: Source)
    requires OnMi(s)
  {
    status & IntrBit(s) != 0
  }

  /** A source is serviced exactly when it is both pending and unmasked. */
  lemma RaisedInPending(intr: bv32, mask: bv32, s: Source)
    requires OnMi(s)
    ensures Raised(intr & mask, s) <==> Raised(intr, s) && Raised(mask, s)
  {
  }

  /** Whether a command word carries the source's set bit. */
  predicate Arms(cmd: bv32, s: Source)
    requires OnMi(s)
  {
    cmd & MaskCommand(s, true) != 0
  }

  /** Whether a command word carries the source's clear bit. */
  predicate Disarms(cmd: bv32, s: Source)
    requires OnMi(s)
  {
    cmd & MaskCommand(s, false) != 0
  }

  /** How the MI mask register takes a command word, source by source: a
      source whose set bit is present becomes unmasked, one whose clear bit
      is present becomes masked, every other source keeps its mask bit. (A
      word carrying both bits of one source is never written by this driver;
      it is modelled as leaving that source alone.) */
  predicate ArmedAfter(mask: bv32, cmd: bv32, s: Source)
    requires OnMi(s)
  {
    if Arms(cmd, s) && !Disarms(cmd, s) then true
    else if Disarms(cmd, s) && !Arms(cmd, s) then false
    else Raised(mask, s)
  }

  /** `after` is what the mask register holds once `cmd` is written over
      `before`. */
  predicate MaskWritten(before: bv32, cmd: bv32, after: bv32) {
    forall t :: OnMi(t) ==> Raised(after, t) == ArmedAfter(before, cmd, t)
  }

  /** A command word names exactly one source and one direction. */
  lemma CommandBits(s: Source, active: bool, t: Source)
    requires OnMi(s) && OnMi(t)
    ensures Arms(MaskCommand(s, active), t) == (t == s && active)
    ensures Disarms(MaskCommand(s, active), t) == (t == s && !active)
  {
  }

  /** One command word arms or disarms its own source and leaves the mask of
      every other source as it was: no read-modify-write is needed. */
  lemma MaskCommandEffect(mask: bv32, s: Source, active: bool, t: Source)
    requires OnMi(s) && OnMi(t)
    ensures ArmedAfter(mask, MaskCommand(s, active), t) == if t == s then active else Raised(mask, t)
  {
    CommandBits(s, active, t);
  }

  /** The initialisation word masks every MI source, whatever the mask
      register held before. */
  lemma ClearAllMasksEffect(mask: bv32, t: Source)
    requires OnMi(t)
    ensures ClearAllMasks == 0x555
    ensures !ArmedAfter(mask, ClearAllMasks, t)
  {
    assert ClearAllMasks == 0x555;
    assert Disarms(0x555, t) && !Arms(0x555, t);
  }
}
