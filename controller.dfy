/**
 * The interrupt controller as the one context object the driver keeps in
 * globals: the nesting depth, the CPU's interrupt-enable bit and the five
 * callback lists (AI, VI, PI, DP, TI). Every operation returns the events it
 * performs (register writes, IE writes, callback calls) in order, and is
 * specified against the value-level definitions of Nesting, Callbacks and
 * Dispatch.
 */
module Interrupts {
  import opened Hardware
  import opened Nesting
  import opened Callbacks
  import opened CallbackLists
  import opened Dispatch

  class Controller {
    var depth: int
    var ie: bool
    const ai: CallbackList
    const vi: CallbackList
    const pi: CallbackList
    const dp: CallbackList
    const ti: CallbackList

    function NestState(): Nest
      reads this
    {
      Nest(depth, ie)
    }

    function ListOf(s: Source): CallbackList
      requires HasHandlers(s)
    {
      if s == AI then ai
      else if s == VI then vi
      else if s == PI then pi
      else if s == DP then dp
      else ti
    }

    /** Every list is well formed and owns its nodes alone: no node is shared
        between two sources' lists, and the controller is none of them. */
    ghost predicate ListsValid()
      reads ai, ai.Repr, vi, vi.Repr, pi, pi.Repr, dp, dp.Repr, ti, ti.Repr
    {
      && ai.Valid() && vi.Valid() && pi.Valid() && dp.Valid() && ti.Valid()
      && ai.Repr !! vi.Repr && ai.Repr !! pi.Repr && ai.Repr !! dp.Repr && ai.Repr !! ti.Repr
      && vi.Repr !! pi.Repr && vi.Repr !! dp.Repr && vi.Repr !! ti.Repr
      && pi.Repr !! dp.Repr && pi.Repr !! ti.Repr
      && dp.Repr !! ti.Repr
      && this !in ai.Repr && this !in vi.Repr && this !in pi.Repr
      && this !in dp.Repr && this !in ti.Repr
    }

    /** The controller's invariant: well-formed lists, and the IE bit
        coherent with the depth. */
    ghost predicate Valid()
      reads this, ai, ai.Repr, vi, vi.Repr, pi, pi.Repr, dp, dp.Repr, ti, ti.Repr
    {
      ListsValid() && Coherent(NestState())
    }

    /** Program start: depth -1 (uninitialised) and empty lists. The IE bit is
        whatever the boot code left. */
    constructor (ie: bool)
      ensures Valid()
      ensures depth == -1 && this.ie == ie
      ensures ai.Contents == [] && vi.Contents == [] && pi.Contents == []
      ensures dp.Contents == [] && ti.Contents == []
      ensures fresh(ai.Repr) && fresh(vi.Repr) && fresh(pi.Repr) && fresh(dp.Repr) && fresh(ti.Repr)
    {
      depth := -1;
      this.ie := ie;
      ai := new CallbackList();
      vi := new CallbackList();
      pi := new CallbackList();
      dp := new CallbackList();
      ti := new CallbackList();
    }

    /** init_interrupts: only the first call (or the first after the depth
        went negative) masks every MI source and sets the IE bit. */
    method InitInterrupts() returns (writes: seq<Event>)
      requires Valid()
      modifies this`depth, this`ie
      ensures Valid()
      ensures NestState() == Init(old(NestState())).next
      ensures writes == Init(old(NestState())).writes
    {
      writes := [];
      if depth < 0 {
        writes := writes + [MiMaskWrite(ClearAllMasks)];
        depth := 0;
        ie := true;
        writes := writes + [CpuIeWrite(true)];
      }
      assert old(ListsValid()) == ListsValid();
    }

    /** disable_interrupts: the IE bit is cleared only by the outermost
        call; nested calls only count. */
    method DisableInterrupts() returns (writes: seq<Event>)
      requires Valid()
      modifies this`depth, this`ie
      ensures Valid()
      ensures NestState() == Disable(old(NestState())).next
      ensures writes == Disable(old(NestState())).writes
    {
      writes := [];
      if depth < 0 {
        return;
      }
      if depth == 0 {
        ie := false;
        writes := writes + [CpuIeWrite(false)];
      }
      depth := depth + 1;
      assert old(ListsValid()) == ListsValid();
    }

    /** enable_interrupts: the IE bit is set again only when the depth comes
        back to zero. */
    method EnableInterrupts() returns (writes: seq<Event>)
      requires Valid()
      modifies this`depth, this`ie
      ensures Valid()
      ensures NestState() == Enable(old(NestState())).next
      ensures writes == Enable(old(NestState())).writes
    {
      writes := [];
      if depth < 0 {
        return;
      }
      depth := depth - 1;
      if depth == 0 {
        ie := true;
        writes := writes + [CpuIeWrite(true)];
      }
      assert old(ListsValid()) == ListsValid();
    }

    /** get_interrupts_state: reads the depth, changes nothing. */
    method GetInterruptsState() returns (st: InterruptState)
      requires Valid()
      ensures st == StateOf(depth)
      ensures st == Enabled ==> depth == 0 && ie
    {
      if depth < 0 {
        st := Uninitialized;
      } else if depth == 0 {
        st := Enabled;
      } else {
        st := Disabled;
      }
    }

    /** register_AI/VI/PI/DP/TI_handler: push onto that source's list only. */
    method RegisterHandler(src: Source, cb: Callback, allocOk: bool)
      requires Valid() && HasHandlers(src)
      modifies ListOf(src).Repr
      ensures Valid()
      ensures ListOf(src).Contents == if allocOk then [cb] + old(ListOf(src).Contents) else []
      ensures fresh(ListOf(src).Repr - old(ListOf(src).Repr))
      ensures src != AI ==> ai.Contents == old(ai.Contents)
      ensures src != VI ==> vi.Contents == old(vi.Contents)
      ensures src != PI ==> pi.Contents == old(pi.Contents)
      ensures src != DP ==> dp.Contents == old(dp.Contents)
      ensures src != TI ==> ti.Contents == old(ti.Contents)
    {
      ListOf(src).Register(cb, allocOk);
      assert src != AI ==> old(ai.Valid()) == ai.Valid();
      assert src != VI ==> old(vi.Valid()) == vi.Valid();
      assert src != PI ==> old(pi.Valid()) == pi.Valid();
      assert src != DP ==> old(dp.Valid()) == dp.Valid();
      assert src != TI ==> old(ti.Valid()) == ti.Valid();
    }

    /** unregister_AI/VI/PI/DP/TI_handler: remove the first registration of
        `cb` from that source's list only. */
    method UnregisterHandler(src: Source, cb: Callback)
      requires Valid() && HasHandlers(src)
      modifies ListOf(src).Repr
      ensures Valid()
      ensures ListOf(src).Contents == RemoveFirst(old(ListOf(src).Contents), cb)
      ensures ListOf(src).Repr <= old(ListOf(src).Repr)
      ensures src != AI ==> ai.Contents == old(ai.Contents)
      ensures src != VI ==> vi.Contents == old(vi.Contents)
      ensures src != PI ==> pi.Contents == old(pi.Contents)
      ensures src != DP ==> dp.Contents == old(dp.Contents)
      ensures src != TI ==> ti.Contents == old(ti.Contents)
    {
      ListOf(src).Unregister(cb);
      assert src != AI ==> old(ai.Valid()) == ai.Valid();
      assert src != VI ==> old(vi.Valid()) == vi.Valid();
      assert src != PI ==> old(pi.Valid()) == pi.Valid();
      assert src != DP ==> old(dp.Valid()) == dp.Valid();
      assert src != TI ==> old(ti.Valid()) == ti.Valid();
    }

    /** __call_callback: walk the list from its head and call every non-NULL
        callback, in list order. */
    method CallCallbacks(list: CallbackList) returns (calls: seq<Event>)
      requires list.Valid()
      ensures calls == Invocations(list.Contents)
    {
      calls := [];
      var cur := list.head;
      ghost var i := 0;
      while cur != null
        invariant 0 <= i <= |list.nodes|
        invariant cur == if i < |list.nodes| then list.nodes[i] else null
        invariant calls == Invocations(list.Contents[..i])
        decreases |list.nodes| - i
      {
        if cur.callback.Handler? {
          calls := calls + [Call(cur.callback.fn)];
        }
        InvocationsAppend(list.Contents[..i], [list.Contents[i]]);
        assert list.Contents[..i + 1] == list.Contents[..i] + [list.Contents[i]];
        cur := cur.next;
        i := i + 1;
      }
      assert list.Contents[..i] == list.Contents;
    }

    /** One block of __MI_handler: if the source is pending and unmasked,
        acknowledge it, then walk its list. */
    method ServiceSource(s: Source, regs: Regs, list: CallbackList) returns (events: seq<Event>)
      requires Driven(s) && list.Valid()
      ensures events == Service(s, regs, list.Contents)
    {
      events := [];
      RaisedInPending(regs.miIntr, regs.miMask, s);
      if Raised(regs.miIntr & regs.miMask, s) {
        var calls := CallCallbacks(list);
        events := [AckWrite(s, regs)] + calls;
      }
    }

    /** set_AI/VI/PI/DP_interrupt: one command word to the MI mask register,
        then, only when arming VI, the trigger line. */
    method SetInterrupt(s: Source, active: bool, line: bv32) returns (writes: seq<Event>)
      requires Driven(s)
      ensures writes == SetInterruptWrites(s, active, line)
    {
      if active {
        writes := [MiMaskWrite(MaskCommand(s, true))];
        if s == VI {
          writes := writes + [ViVIntWrite(line)];
        }
      } else {
        writes := [MiMaskWrite(MaskCommand(s, false))];
      }
    }

    /** __MI_handler: service the pending, unmasked sources in bit order,
        acknowledging each before calling its list. SP and SI interrupts are
        left unhandled: nothing is written or called for them. */
    method MIHandler(regs: Regs) returns (events: seq<Event>)
      requires Valid()
      ensures events == MIEvents(regs, ai.Contents, vi.Contents, pi.Contents, dp.Contents)
    {
      var forAi := ServiceSource(AI, regs, ai);
      var forVi := ServiceSource(VI, regs, vi);
      var forPi := ServiceSource(PI, regs, pi);
      var forDp := ServiceSource(DP, regs, dp);
      events := forAi + forVi + forPi + forDp;
    }

    /** __TI_handler: the timer interrupt was acknowledged before this runs;
        only the TI list is called. */
    method TIHandler() returns (events: seq<Event>)
      requires Valid()
      ensures events == Invocations(ti.Contents)
    {
      events := CallCallbacks(ti);
    }
  }
  /** Two registrations in a row on the AI list compose: the later one is
      in front of the earlier one. */
  method RegisterTwice(c: Controller, a: Callback, b: Callback)
    requires c.Valid()
    modifies c.ai.Repr
    ensures c.ai.Contents == [b, a] + old(c.ai.Contents)
  {
    assert c.ListOf(AI) == c.ai;
    c.RegisterHandler(AI, a, true);
    c.RegisterHandler(AI, b, true);
  }
}
