/**
 * The critical-section nesting controller: one signed depth counter that is
 * negative before initialisation, zero while interrupts are enabled and N > 0
 * while N disable calls are outstanding, together with the CPU's global
 * interrupt-enable (IE) bit. Every call is a step from one state to the next
 * that also yields the hardware writes it performs, so "the IE bit is written
 * only at the outermost boundary" can be stated over the writes.
 */
module Nesting {
  import opened Hardware

  /** What get_interrupts_state reports. */
  datatype InterruptState = Uninitialized | Enabled | Disabled

  /** The nesting depth and the CPU's IE bit. */
  datatype Nest = Nest(depth: int, ie: bool)

  /** The state after one or more calls, and the writes they performed. */
  datatype Step = Step(next: Nest, writes: seq<Event>)

  /** The public calls on the controller. */
  datatype Op = InitOp | DisableOp | EnableOp

  /** get_interrupts_state: a classification of the depth alone. */
  function StateOf(depth: int): (st: InterruptState)
    ensures st == Uninitialized <==> depth < 0
    ensures st == Enabled <==> depth == 0
    ensures st == Disabled <==> depth > 0
  {
    if depth < 0 then Uninitialized
    else if depth == 0 then Enabled
    else Disabled
  }

  /** Once initialised, the IE bit is set exactly when no disable is
      outstanding. Before initialisation nothing is known about it. */
  predicate Coherent(n: Nest) {
    n.depth >= 0 ==> (n.ie <==> n.depth == 0)
  }

  /** init_interrupts. */
  function Init(n: Nest): (r: Step)
    ensures n.depth >= 0 ==> r == Step(n, [])
    ensures n.depth < 0 ==> StateOf(r.next.depth) == Enabled && r.next.ie
    ensures n.depth < 0 ==> r.writes == [MiMaskWrite(ClearAllMasks), CpuIeWrite(true)]
    ensures Coherent(r.next) || r.next == n
  {
    if n.depth < 0 then
      Step(Nest(0, true), [MiMaskWrite(ClearAllMasks), CpuIeWrite(true)])
    else
      Step(n, [])
  }

  /** disable_interrupts. */
  function Disable(n: Nest): (r: Step)
    ensures n.depth < 0 ==> r == Step(n, [])
    ensures n.depth >= 0 ==> r.next.depth == n.depth + 1 && StateOf(r.next.depth) == Disabled
    ensures r.writes != [] <==> n.depth == 0
    ensures n.depth == 0 ==> r.writes == [CpuIeWrite(false)] && !r.next.ie
    ensures n.depth != 0 ==> r.next.ie == n.ie
  {
    if n.depth < 0 then Step(n, [])
    else if n.depth == 0 then Step(Nest(1, false), [CpuIeWrite(false)])
    else Step(Nest(n.depth + 1, n.ie), [])
  }

  /** enable_interrupts. */
  function Enable(n: Nest): (r: Step)
    ensures n.depth < 0 ==> r == Step(n, [])
    ensures n.depth >= 0 ==> r.next.depth == n.depth - 1
    ensures r.writes != [] <==> n.depth == 1
    ensures n.depth == 1 ==> r.writes == [CpuIeWrite(true)] && r.next.ie
    ensures n.depth != 1 ==> r.next.ie == n.ie
  {
    if n.depth < 0 then Step(n, [])
    else
      var depth := n.depth - 1;
      if depth == 0 then Step(Nest(depth, true), [CpuIeWrite(true)])
      else Step(Nest(depth, n.ie), [])
  }

  function Apply(n: Nest, op: Op): Step {
    match op
    case InitOp => Init(n)
    case DisableOp => Disable(n)
    case EnableOp => Enable(n)
  }

  /** A sequence of calls, performed from left to right. Every call keeps the
      IE bit coherent with the depth, and only ever writes the IE bit or the
      initial clear-all mask command. */
  function Run(n: Nest, ops: seq<Op>): (r: Step)
    ensures Coherent(n) ==> Coherent(r.next)
    ensures forall e :: e in r.writes ==> e.CpuIeWrite? || e == MiMaskWrite(ClearAllMasks)
    decreases ops
  {
    if ops == [] then Step(n, [])
    else
      var first := Apply(n, ops[0]);
      var rest := Run(first.next, ops[1..]);
      Step(rest.next, first.writes + rest.writes)
  }

  lemma {:induction false} RunAppend(n: Nest, a: seq<Op>, b: seq<Op>)
    ensures Run(n, a + b) ==
      var s1 := Run(n, a);
      var s2 := Run(s1.next, b);
      Step(s2.next, s1.writes + s2.writes)
    decreases a
  {
    if a == [] {
      assert a + b == b;
    } else {
      assert (a + b)[0] == a[0];
      assert (a + b)[1..] == a[1..] + b;
      RunAppend(Apply(n, a[0]).next, a[1..], b);
    }
  }

  function Repeat(op: Op, k: nat): (ops: seq<Op>)
    ensures |ops| == k && forall i :: 0 <= i < k ==> ops[i] == op
  {
    seq(k, _ => op)
  }

  /** k nested disables: only the first one, and only from depth 0, clears
      the IE bit. */
  lemma {:induction false} RunDisables(d: int, ie: bool, k: nat)
    requires d >= 0
    ensures Run(Nest(d, ie), Repeat(DisableOp, k)) ==
      if k == 0 then Step(Nest(d, ie), [])
      else if d == 0 then Step(Nest(k, false), [CpuIeWrite(false)])
      else Step(Nest(d + k, ie), [])
    decreases k
  {
    if k > 0 {
      var ops := Repeat(DisableOp, k);
      assert ops[1..] == Repeat(DisableOp, k - 1);
      var first := Disable(Nest(d, ie));
      RunDisables(d + 1, first.next.ie, k - 1);
    }
  }

  /** k enables from depth d >= k: only the one that reaches depth 0 sets
      the IE bit. */
  lemma {:induction false} RunEnables(d: int, ie: bool, k: nat)
    requires k <= d
    ensures Run(Nest(d, ie), Repeat(EnableOp, k)) ==
      if k > 0 && d == k then Step(Nest(0, true), [CpuIeWrite(true)])
      else Step(Nest(d - k, ie), [])
  {
    if k > 0 {
      var ops := Repeat(EnableOp, k);
      assert ops[1..] == Repeat(EnableOp, k - 1);
      var first := Enable(Nest(d, ie));
      RunEnables(d - 1, first.next.ie, k - 1);
    }
  }

  /** A critical section nested k deep restores the state it started from,
      and touches the IE bit only if it started with interrupts enabled: one
      clear on entry and one set on exit, whatever k is. */
  lemma NestedSectionRestores(n: Nest, k: nat)
    requires Coherent(n) && n.depth >= 0
    ensures Run(n, Repeat(DisableOp, k) + Repeat(EnableOp, k)) ==
      Step(n, if k > 0 && n.depth == 0 then [CpuIeWrite(false), CpuIeWrite(true)] else [])
  {
    RunAppend(n, Repeat(DisableOp, k), Repeat(EnableOp, k));
    RunDisables(n.depth, n.ie, k);
    var mid := Run(n, Repeat(DisableOp, k)).next;
    RunEnables(mid.depth, mid.ie, k);
  }

  /** Before initialisation (and after an unmatched enable) disable and
      enable calls change nothing and write nothing. */
  lemma {:induction false} UninitializedIgnoresNesting(n: Nest, ops: seq<Op>)
    requires n.depth < 0 && InitOp !in ops
    ensures Run(n, ops) == Step(n, [])
  {
    if ops != [] {
      assert ops[0] in ops;
      assert forall o :: o in ops[1..] ==> o in ops;
      UninitializedIgnoresNesting(n, ops[1..]);
    }
  }

  /** An enable with no matching disable drops the depth to -1: the
      controller reports itself uninitialised, writes nothing, and the next
      init_interrupts runs its whole initialisation again. */
  lemma UnmatchedEnable(ie: bool)
    ensures Enable(Nest(0, ie)) == Step(Nest(-1, ie), [])
    ensures StateOf(Enable(Nest(0, ie)).next.depth) == Uninitialized
    ensures Init(Nest(-1, ie)).writes == [MiMaskWrite(ClearAllMasks), CpuIeWrite(true)]
  {
  }

  /** How far one call moves an initialised depth. */
  function Delta(op: Op): int {
    match op
    case DisableOp => 1
    case EnableOp => -1
    case InitOp => 0
  }

  /** Net number of disables over enables. */
  function Height(ops: seq<Op>): int {
    if ops == [] then 0 else Delta(ops[0]) + Height(ops[1..])
  }

  /** No prefix of the calls has more enables than the starting depth plus
      its disables: every enable matches an earlier disable. */
  predicate Matched(d: int, ops: seq<Op>) {
    forall i :: 0 <= i <= |ops| ==> d + Height(ops[..i]) >= 0
  }

  lemma {:induction false} MatchedTail(d: int, ops: seq<Op>)
    requires ops != [] && Matched(d, ops)
    ensures Matched(d + Delta(ops[0]), ops[1..])
    ensures d + Delta(ops[0]) >= 0
  {
    var h := Delta(ops[0]);
    forall i | 0 <= i <= |ops[1..]|
      ensures d + h + Height(ops[1..][..i]) >= 0
    {
      var p := ops[..i + 1];
      assert p[0] == ops[0] && p[1..] == ops[1..][..i];
      assert d + Height(p) >= 0;
    }
    var p := ops[..1];
    assert p[0] == ops[0] && p[1..] == [];
    assert d + Height(p) >= 0;
  }

  /** Matched calls from an initialised state move the depth by exactly
      their net height. */
  lemma {:induction false} RunDepth(n: Nest, ops: seq<Op>)
    requires n.depth >= 0 && Matched(n.depth, ops)
    ensures Run(n, ops).next.depth == n.depth + Height(ops)
    decreases ops
  {
    if ops != [] {
      MatchedTail(n.depth, ops);
      var first := Apply(n, ops[0]);
      assert first.next.depth == n.depth + Delta(ops[0]);
      RunDepth(first.next, ops[1..]);
    }
  }

  /** Any matched, balanced sequence of calls (arbitrarily interleaved
      nesting, with init calls anywhere) returns the depth and the IE bit to
      where they started. */
  lemma BalancedRestores(n: Nest, ops: seq<Op>)
    requires Coherent(n) && n.depth >= 0
    requires Matched(n.depth, ops) && Height(ops) == 0
    ensures Run(n, ops).next == n
  {
    RunDepth(n, ops);
  }

  /** The states get_interrupts_state reports through a first
      initialisation, one disable and the matching enable. */
  lemma QueryThroughSection(ie: bool)
    ensures var s0 := Nest(-1, ie);
            var s1 := Init(s0).next;
            var s2 := Disable(s1).next;
            var s3 := Enable(s2).next;
            StateOf(s0.depth) == Uninitialized && StateOf(s1.depth) == Enabled &&
            StateOf(s2.depth) == Disabled && StateOf(s3.depth) == Enabled && s3.ie
  {
  }
}
