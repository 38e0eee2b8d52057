/** Running the instructions of a block, one step at a time, with branches. */
module BlockRuns {
  import opened Isa
  import opened LinkLists

  /** A program counter, in instructions from the start of the block, and a state; and once control has
      gone to an address from there, that address. */
  datatype Config<M> = Config(pc: int, st: State<M>, to: Option<int> := None)

  /** What one instruction does: where control goes, and the new state.  B and BNE are relative to their
      own position, except that the loader aims a relocated B at an address; any other branch that
      is relocated, or that the passes do not interpret, goes where the machine says. */
  function Effect<M>(m: Machine<M>, sl: Slot, st: State<M>): (Jump, State<M>) {
    if ClassOf(sl.insn.opc) == NotBranch then (By(1), ExecSlot(m, sl, st))
    else if sl.pinned && sl.insn.opc == B then var (a, st') := m.relocated(sl.insn, st); (To(a), st')
    else if sl.pinned || ClassOf(sl.insn.opc) == ClassOther then m.transfer(sl.insn, st)
    else if sl.insn.opc == B then (By(sl.insn.offs), st)
    else (By(if st.regs[sl.insn.src] != st.regs[sl.insn.dst] then sl.insn.offs else 1), st)
  }

  /** One step.  Outside the code nothing happens: control has left the block. */
  function Step<M>(m: Machine<M>, code: seq<Slot>, c: Config<M>): Config<M> {
    if c.to.None? && 0 <= c.pc < |code| then
      var (j, st) := Effect(m, code[c.pc], c.st);
      match j
      case By(d) => Config(c.pc + d, st)
      case To(a) => Config(c.pc, st, Some(a))
    else c
  }

  function Steps<M>(m: Machine<M>, code: seq<Slot>, c: Config<M>, n: nat): Config<M>
    decreases n
  {
    if n == 0 then c else Steps(m, code, Step(m, code, c), n - 1)
  }

  lemma {:induction false} StepsAdd<M>(m: Machine<M>, code: seq<Slot>, c: Config<M>, a: nat, b: nat)
    ensures Steps(m, code, c, a + b) == Steps(m, code, Steps(m, code, c, a), b)
    decreases a
  {
    if a > 0 { StepsAdd(m, code, Step(m, code, c), a - 1, b); }
  }

  lemma {:induction false} StepsLast<M>(m: Machine<M>, code: seq<Slot>, c: Config<M>, n: nat)
    ensures Steps(m, code, c, n + 1) == Step(m, code, Steps(m, code, c, n))
  {
    StepsAdd(m, code, c, n, 1);
    var d := Steps(m, code, c, n);
    assert Steps(m, code, d, 1) == Steps(m, code, Step(m, code, d), 0);
  }

  // ----- a block and the code put behind it -----

  /** Control never gets from before position k to behind it other than through k, and never
      from inside src to before its start. */
  ghost predicate StaysBefore<M(!new)>(m: Machine<M>, dst: seq<Slot>, k: nat) {
    forall pc: int, st: State<M> :: 0 <= pc < k ==> Step(m, dst, Config(pc, st)).pc <= k
  }

  ghost predicate StaysAfter<M(!new)>(m: Machine<M>, src: seq<Slot>) {
    forall pc: int, st: State<M> :: 0 <= pc < |src| ==> Step(m, src, Config(pc, st)).pc >= 0
  }

  lemma StepInFront<M>(m: Machine<M>, dst: seq<Slot>, k: nat, src: seq<Slot>, pc: int, st: State<M>)
    requires pc < k <= |dst|
    ensures Step(m, dst[..k] + src, Config(pc, st)) == Step(m, dst, Config(pc, st))
  {
    if 0 <= pc { assert (dst[..k] + src)[pc] == dst[pc]; }
  }

  lemma StepBehind<M>(m: Machine<M>, front: seq<Slot>, src: seq<Slot>, pc: nat, st: State<M>)
    ensures var c := Step(m, src, Config(pc, st));
            Step(m, front + src, Config(|front| + pc, st)) == Config(|front| + c.pc, c.st, c.to)
  {
    if pc < |src| { assert (front + src)[|front| + pc] == src[pc]; }
  }

  /** Control that has gone to an address stays there, and goes from where it stands. */
  lemma StepGone<M>(m: Machine<M>, code: seq<Slot>, c: Config<M>)
    ensures c.to.Some? ==> Step(m, code, c) == c
    ensures Step(m, code, c).to.Some? ==> Step(m, code, c).pc == c.pc
  {
  }

  lemma BeforeAt<M(!new)>(m: Machine<M>, dst: seq<Slot>, k: nat, c: Config<M>)
    requires StaysBefore(m, dst, k) && c.pc < k
    ensures Step(m, dst, c).pc <= k
  {
    if c.to.None? { assert c == Config(c.pc, c.st); }
  }

  lemma AfterAt<M(!new)>(m: Machine<M>, src: seq<Slot>, c: Config<M>)
    requires StaysAfter(m, src) && c.pc >= 0
    ensures Step(m, src, c).pc >= 0
  {
    if c.to.None? { assert c == Config(c.pc, c.st); }
  }
}
