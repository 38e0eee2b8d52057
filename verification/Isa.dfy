/** The instructions the optimiser looks at, and what they do.

    Registers are 64-bit and wrap.  Memory is any type M with a load and a store that
    may both change it, so a proof for every Machine<M> fixes the order, the addresses
    and the values of all memory accesses.  The immediate ranges and the effects are
    those of the LoongArch Reference Manual, Volume 1, sections 2.2.1, 2.2.4 and 2.2.5. */
module Isa {
  const TWO64: int := 0x1_0000_0000_0000_0000
  const TWO32: int := 0x1_0000_0000

  type Reg = r: nat | r < 32
  type Word = w: nat | w < 0x1_0000_0000_0000_0000

  function Wrap(x: int): Word { x % TWO64 }

  datatype Opc =
    | B | BNE
    | BEQZ | BNEZ | BCEQZ | BCNEZ | JIRL | BL | BEQ | BLT | BGE | BLTU | BGEU
    | LD_D | ST_D | ADDI_D | LU12I_W | ORI | LU32I_D | ANDI
    | OTHER(code: nat)

  /** A decoded instruction: for ST_D and for branches `dst` is the rd field, which is read.
      `rest` stands for all operand fields the optimiser never looks at. */
  datatype Insn = Insn(opc: Opc, dst: Reg, src: Reg, si: int, ui: nat, offs: int, rest: nat)

  /** The field ranges the decoder produces (si12, si20 and ui12). */
  predicate Decoded(i: Insn) {
    match i.opc
    case LD_D | ST_D | ADDI_D => -2048 <= i.si <= 2047
    case LU12I_W | LU32I_D => -0x8_0000 <= i.si < 0x8_0000
    case ORI | ANDI => i.ui < 4096
    case _ => true
  }

  /** How the branch lists of a block classify an opcode. */
  datatype BranchClass = NotBranch | ClassB | ClassBne | ClassOther

  function ClassOf(o: Opc): BranchClass {
    match o
    case B => ClassB
    case BNE => ClassBne
    case BEQZ | BNEZ | BCEQZ | BCNEZ | JIRL | BL | BEQ | BLT | BGE | BLTU | BGEU => ClassOther
    case _ => NotBranch
  }

  /** The opcodes at which the peephole passes stop. */
  predicate StopsPass(o: Opc) { o == B || o == BNE }

  type Regs = s: seq<Word> | |s| == 32 && s[0] == 0 witness seq(32, _ => 0)

  datatype State<M> = State(regs: Regs, mem: M)

  /** Where a branch goes: so many instructions on, or to an address. */
  datatype Jump = By(displacement: int) | To(address: int)

  /** `other` gives the effect of instructions the passes do not interpret; `transfer` says where a
      branch of class ClassOther goes, and `relocated` to which address a relocated B goes. */
  datatype Machine<!M> = Machine(
    load: (M, Word) -> (Word, M),
    store: (M, Word, Word) -> M,
    other: (Insn, State<M>) -> State<M>,
    transfer: (Insn, State<M>) -> (Jump, State<M>),
    relocated: (Insn, State<M>) -> (int, State<M>))

  /** An uninterpreted instruction writes at most its dst register (and memory). */
  ghost predicate WritesOnlyDst<M(!new)>(m: Machine<M>) {
    forall i: Insn, s: State<M>, r: Reg :: r != i.dst ==> m.other(i, s).regs[r] == s.regs[r]
  }

  function SetReg<M>(s: State<M>, d: Reg, v: int): State<M> {
    if d == 0 then s else s.(regs := s.regs[d := Wrap(v)])
  }

  /** Bit k of a two's complement number. */
  predicate Bit(x: int, k: nat)
    decreases k
  {
    if k == 0 then x % 2 == 1 else Bit(x / 2, k - 1)
  }

  /** x | u and x & u, where only the low n bits of u count. */
  function OrBits(x: int, u: nat, n: nat): int
    decreases n
  {
    if n == 0 then x else 2 * OrBits(x / 2, u / 2, n - 1) + (if x % 2 == 1 || u % 2 == 1 then 1 else 0)
  }

  function AndBits(x: int, u: nat, n: nat): nat
    decreases n
  {
    if n == 0 then 0 else 2 * AndBits(x / 2, u / 2, n - 1) + (if x % 2 == 1 && u % 2 == 1 then 1 else 0)
  }

  /** The effect of one instruction that is not a control transfer. */
  function Exec<M>(m: Machine<M>, i: Insn, s: State<M>): State<M> {
    match i.opc
    case LD_D =>
      var (v, mem) := m.load(s.mem, Wrap(s.regs[i.src] + i.si));
      SetReg(s.(mem := mem), i.dst, v)
    case ST_D =>
      s.(mem := m.store(s.mem, Wrap(s.regs[i.src] + i.si), s.regs[i.dst]))
    case ADDI_D => SetReg(s, i.dst, s.regs[i.src] + i.si)
    case LU12I_W => SetReg(s, i.dst, i.si * 4096)
    case ORI => SetReg(s, i.dst, OrBits(s.regs[i.src], i.ui, 12))
    case LU32I_D => SetReg(s, i.dst, i.si * TWO32 + s.regs[i.dst] % TWO32)
    case ANDI => SetReg(s, i.dst, AndBits(s.regs[i.src], i.ui, 12))
    case _ => m.other(i, s)
  }

  /** An instruction of a block together with whether a live relocation covers it.  The
      loader rewrites covered instructions, so what those do is only known to be some
      uninterpreted instruction with the same destination. */
  datatype Slot = Slot(insn: Insn, pinned: bool)

  function ExecSlot<M>(m: Machine<M>, sl: Slot, s: State<M>): State<M> {
    if sl.pinned then m.other(sl.insn, s) else Exec(m, sl.insn, s)
  }

  /** Straight-line execution of all the given slots. */
  function ExecAll<M>(m: Machine<M>, code: seq<Slot>, s: State<M>): State<M> {
    if code == [] then s else ExecAll(m, code[1..], ExecSlot(m, code[0], s))
  }

  /** Runs the straight-line prefix up to the first B or BNE: the state reached there
      and the code that remains, beginning with that branch. */
  function RunPrefix<M>(m: Machine<M>, code: seq<Slot>, s: State<M>): (State<M>, seq<Slot>) {
    if code == [] || StopsPass(code[0].insn.opc) then (s, code)
    else RunPrefix(m, code[1..], ExecSlot(m, code[0], s))
  }

  predicate Straight(code: seq<Slot>) {
    forall i :: 0 <= i < |code| ==> !StopsPass(code[i].insn.opc)
  }

  lemma {:induction false} OrBit(x: int, u: nat, n: nat, k: nat)
    ensures Bit(OrBits(x, u, n), k) <==> Bit(x, k) || (k < n && Bit(u, k))
    decreases n
  {
    if n > 0 && k > 0 { OrBit(x / 2, u / 2, n - 1, k - 1); }
  }

  /** x << n */
  function Shifted(x: int, n: nat): int { if n == 0 then x else 2 * Shifted(x, n - 1) }

  lemma Half(p: int, r: nat)
    ensures (2 * p + r) / 2 == p + r / 2 && (2 * p + r) % 2 == r % 2
  {
  }

  /** Bits of a number put together from two. */
  lemma {:induction false} BitJoin(q: int, r: nat, n: nat, k: nat)
    requires r < Shifted(1, n)
    ensures Bit(Shifted(q, n) + r, k) <==> if k < n then Bit(r, k) else Bit(q, k - n)
    decreases n
  {
    if n > 0 {
      Half(Shifted(q, n - 1), r);
      if k > 0 { BitJoin(q, r / 2, n - 1, k - 1); }
    }
  }

  lemma {:induction false} AndBit(x: int, u: nat, n: nat, k: nat)
    ensures Bit(AndBits(x, u, n), k) <==> k < n && Bit(x, k) && Bit(u, k)
    decreases n, k
  {
    if n > 0 && k > 0 {
      AndBit(x / 2, u / 2, n - 1, k - 1);
    } else if n == 0 && k > 0 {
      AndBit(x, u, 0, k - 1);
    }
  }

  /** What stands above the low n bits stays. */
  lemma {:induction false} OrAbove(q: int, r: nat, u: nat, n: nat)
    ensures OrBits(Shifted(q, n) + r, u, n) == Shifted(q, n) + OrBits(r, u, n)
  {
    if n > 0 {
      Half(Shifted(q, n - 1), r);
      OrAbove(q, r / 2, u / 2, n - 1);
    }
  }

  lemma {:induction false} OrBelow(r: nat, u: nat, n: nat)
    requires r < Shifted(1, n)
    ensures 0 <= OrBits(r, u, n) < Shifted(1, n)
  {
    if n > 0 { OrBelow(r / 2, u / 2, n - 1); }
  }

  lemma FourMore(x: int, n: nat)
    ensures Shifted(x, n + 4) == 16 * Shifted(x, n)
  {
    assert Shifted(x, n + 1) == 2 * Shifted(x, n) && Shifted(x, n + 2) == 2 * Shifted(x, n + 1);
    assert Shifted(x, n + 3) == 2 * Shifted(x, n + 2) && Shifted(x, n + 4) == 2 * Shifted(x, n + 3);
  }

  lemma Twelve(x: int)
    ensures Shifted(x, 12) == 4096 * x
  {
    FourMore(x, 0);
    FourMore(x, 4);
    FourMore(x, 8);
  }

  /** Or-ing in a twelve-bit number only changes the low twelve bits. */
  lemma OrLow(x: int, u: nat)
    ensures OrBits(x, u, 12) == x - x % 4096 + OrBits(x % 4096, u, 12)
    ensures 0 <= OrBits(x % 4096, u, 12) < 4096
  {
    hide OrBits, Shifted;
    Twelve(1);
    Twelve(x / 4096);
    OrAbove(x / 4096, x % 4096, u, 12);
    OrBelow(x % 4096, u, 12);
  }

  lemma {:induction false} WrapAdd(a: int, b: int)
    ensures Wrap(Wrap(a) + b) == Wrap(a + b)
  {
    var q := a / TWO64;
    assert a == q * TWO64 + Wrap(a);
    assert a + b == q * TWO64 + (Wrap(a) + b);
    ModShift(Wrap(a) + b, q);
  }

  lemma ModShift(x: int, q: int)
    ensures (q * TWO64 + x) % TWO64 == x % TWO64
  {
  }

  lemma SplitAt<T>(s: seq<T>, n: nat)
    requires n <= |s|
    ensures s[..n] + s[n..] == s
  {
  }

  lemma Assoc<T>(a: seq<T>, b: seq<T>, c: seq<T>)
    ensures a + (b + c) == a + b + c
  {
  }

  /** The part of s from p on, cut after its first m elements. */
  lemma SliceAt<T>(s: seq<T>, p: nat, m: nat)
    requires p < |s| && p + m <= |s|
    ensures s[p..][0] == s[p] && s[p..][..m] == s[p..p + m] && s[p..][m..] == s[p + m..]
    ensures s[..p] + s[p..][..m] == s[..p + m]
  {
  }

  lemma ConsTail<T>(x: T, t: seq<T>)
    ensures ([x] + t)[0] == x && ([x] + t)[1..] == t
  {
  }

  lemma {:induction false} ExecAllAppend<M>(m: Machine<M>, a: seq<Slot>, b: seq<Slot>, s: State<M>)
    ensures ExecAll(m, a + b, s) == ExecAll(m, b, ExecAll(m, a, s))
  {
    if a == [] {
      assert a + b == b;
    } else {
      assert (a + b)[1..] == a[1..] + b && (a + b)[0] == a[0];
      ExecAllAppend(m, a[1..], b, ExecSlot(m, a[0], s));
    }
  }

  /** Straight code in front just runs first. */
  lemma {:induction false} RunPrefixAppend<M>(m: Machine<M>, a: seq<Slot>, b: seq<Slot>, s: State<M>)
    requires Straight(a)
    ensures RunPrefix(m, a + b, s) == RunPrefix(m, b, ExecAll(m, a, s))
  {
    if a == [] {
      assert a + b == b;
    } else {
      assert (a + b)[1..] == a[1..] + b && (a + b)[0] == a[0];
      RunPrefixAppend(m, a[1..], b, ExecSlot(m, a[0], s));
    }
  }

  lemma RunPrefixCons<M>(m: Machine<M>, x: Slot, t: seq<Slot>, s: State<M>)
    requires !StopsPass(x.insn.opc)
    ensures RunPrefix(m, [x] + t, s) == RunPrefix(m, t, ExecSlot(m, x, s))
  {
    ConsTail(x, t);
  }

  lemma ExecTwo<M>(m: Machine<M>, a: Slot, b: Slot, s: State<M>)
    ensures ExecAll(m, [a, b], s) == ExecSlot(m, b, ExecSlot(m, a, s))
  {
    assert [a, b][1..] == [b] && [b][1..] == [];
    assert ExecAll(m, [b], ExecSlot(m, a, s)) == ExecSlot(m, b, ExecSlot(m, a, s));
  }

  lemma ExecThree<M>(m: Machine<M>, a: Slot, b: Slot, c: Slot, s: State<M>)
    ensures ExecAll(m, [a, b, c], s) == ExecSlot(m, c, ExecSlot(m, b, ExecSlot(m, a, s)))
  {
    assert [a, b, c][1..] == [b, c];
    ExecTwo(m, b, c, ExecSlot(m, a, s));
  }
}
