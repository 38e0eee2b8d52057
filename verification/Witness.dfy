/** Concrete inputs on which the code does not keep a promise, one for each exact condition that is
    not already shown to fail where it is proved. */
module Witnesses {
  import opened Isa
  import opened Blocks
  import opened SlotViews
  import opened Edits
  import StackRuns
  import StackPasses
  import Merge
  import RemoveTail
  import RemoveNon
  import FixBranch
  import BlockMeanings
  import ExitMeanings

  /** An instruction with the given registers and displacement. */
  function Op(o: Opc, dst: Reg, src: Reg, si: int, offs: int): Insn { Insn(o, dst, src, si, 0, offs, 0) }

  function Branch(offs: int): Insn { Op(B, 0, 0, 0, offs) }

  function Plain(): Insn { Op(LU12I_W, 4, 0, 1, 0) }

  // ----- pushes -----

  function Push(value: Reg): seq<Slot> {
    [Slot(Op(ST_D, value, 3, -8, 0), false), Slot(Op(ADDI_D, 3, 3, -8, 0), false)]
  }

  /** `push r4; push r3` on base r3: coalesced, it stores r3 before it moves. */
  lemma PushOfBase(s: StackRuns.LogState)
    ensures var run := Push(4) + Push(3);
            ExecAll(StackRuns.LogMachine(), StackRuns.Coalesce(StackRuns.Push, run), s)
              != ExecAll(StackRuns.LogMachine(), run, s)
  {
    hide ExecAll, StackRuns.LogMachine, StackRuns.Coalesce;
    var run := Push(4) + Push(3);
    assert run[2..] == Push(3) && Push(3)[2..] == [] && run[..4] == run && run[4..] == [];
    assert !StackRuns.ChunkSafe(run[2..], 3, 1);
    assert !StackRuns.RunSafe(StackRuns.Push, run, 3);
    StackRuns.RunExact(StackRuns.Push, run, 3, s);
  }

  function Pushes(n: nat): seq<Slot> { if n == 0 then [] else Push(4) + Pushes(n - 1) }

  lemma {:induction false} PushesRun(n: nat)
    ensures |Pushes(n)| == 2 * n && StackRuns.RunLength(StackRuns.Push, Pushes(n), 3) == n
    ensures StackRuns.IsRun(StackRuns.Push, Pushes(n), 3)
  {
    if n > 0 {
      PushesRun(n - 1);
      assert Pushes(n)[2..] == Pushes(n - 1);
    }
  }

  /** 257 pushes make two chunks, and the visitor's index is one short behind them. */
  lemma LongRunAdvance()
    ensures var s := Pushes(257);
            |s| == 514 && StackPasses.RunAt(StackRuns.Push, s, 0, 257, 3)
              && StackPasses.Width(StackRuns.Push, s, 0, 257) == 259
  {
    hide Pushes, StackRuns.Coalesce, StackRuns.IsRun;
    PushesRun(257);
    var s := Pushes(257);
    assert s[0..0 + 2 * 257] == s;
    StackRuns.CoalesceLength(StackRuns.Push, s, 3);
    assert StackRuns.Chunks(StackRuns.Push, 0) == 0 && StackRuns.Chunks(StackRuns.Push, 1) == 1;
  }

  function Store(si: int): Insn { Op(ST_D, 4, 3, si, 0) }

  function Move(si: int): Insn { Op(ADDI_D, 3, 3, si, 0) }

  function Relocated(): Block {
    Loaded([Store(-8), Move(-8), Store(-8), Move(-8)], [Rel(OTHER_REL(0), 4, 1, 0, 0)], [INVALID, INVALID], [0, 0])
  }

  lemma RelocatedRun()
    ensures var s := Slots(Relocated());
            && |s| == 4 && s[0..] == s && StackRuns.PairAt(StackRuns.Push, s)
            && StackRuns.RunLength(StackRuns.Push, s, 3) == 2
  {
    hide PositionsFrom;
    var s := Slots(Relocated());
    assert s[2..][2..] == [];
    assert StackRuns.RunLength(StackRuns.Push, s[2..], 3) == 1;
  }

  lemma RelocatedChunk()
    ensures var h := StackPasses.AfterSequence(StackRuns.Push, Relocated(), 0, 0, 2);
            h.pos == 4 && h.b.code == [Store(-8), Move(-8), Store(-16), Move(-16)]
  {
    hide PositionsFrom, StackPasses.AfterRound;
    var b := Relocated();
    assert b.rels[0].tcOffset <= 4 * (0 + 1) < b.rels[0].tcOffset + 4 * b.rels[0].slots;
    StackPasses.RoundExact(StackRuns.Push, b, 0, 0, 0);
  }

  /** Two pushes whose first `addi.d` is relocated: it cannot be deleted and stays, although the second one
      then moves the register by the stride of both. */
  lemma RelocatedPush()
    ensures Wf(Relocated())
    ensures StackPasses.AfterVisit(StackRuns.Push, Relocated(), 0, 0).code
              == [Store(-8), Move(-8), Store(-16), Move(-16)]
  {
    hide Positions, StackPasses.AfterVisit, StackPasses.AfterSequence, StackRuns.PairAt, StackRuns.RunLength;
    RelocatedRun();
    RelocatedChunk();
    StackPasses.VisitStep(StackRuns.Push, Relocated(), 0, 0);
    StackPasses.VisitEnd(StackRuns.Push, StackPasses.AfterSequence(StackRuns.Push, Relocated(), 0, 0, 2).b, 4, 3);
  }

  // ----- insertion -----

  /** What goes in front of a branch leaves it listed one place too early. */
  lemma InsertBeforeBranch()
    ensures var b := Loaded([Branch(0)], [], [INVALID, INVALID], [0, 0]);
            var c := Inserted(b, 0, 0, Plain());
            Wf(b) && c.code == [Plain(), Branch(0)] && c.bs == [0]
  {
    hide PositionsFrom;
    OnlyOne([Branch(0)], ClassB, 0);
    NoneOf([Branch(0)], ClassBne);
    NoneOf([Branch(0)], ClassOther);
  }

  lemma NoneOf(code: seq<Insn>, c: BranchClass)
    requires forall i :: 0 <= i < |code| ==> ClassOf(code[i].opc) != c
    ensures Positions(code, c) == []
  {
    PositionsNone(code, c, 0);
  }

  lemma TwoOf(code: seq<Insn>, c: BranchClass, i: nat, j: nat)
    requires i < j < |code| && ClassOf(code[i].opc) == c == ClassOf(code[j].opc)
    requires forall k :: 0 <= k < |code| && k != i && k != j ==> ClassOf(code[k].opc) != c
    ensures Positions(code, c) == [i, j]
  {
    hide Positions, ClassOf;
    ListExactly(code, c, [i, j]);
  }

  /** A branch in front of the first of two of its class, and out again: the list is out of order. */
  lemma InsertThenDeleteBranch()
    ensures var b := Loaded([Branch(0), Branch(0)], [], [INVALID, INVALID], [0, 0]);
            Wf(b) && b.bs == [0, 1] && DropInsn(Inserted(b, 0, 0, Branch(0)), 0, 0).bs == [1, 0]
  {
    hide PositionsFrom;
    var code := [Branch(0), Branch(0)];
    TwoOf(code, ClassB, 0, 1);
    var b := Loaded(code, [], [INVALID, INVALID], [0, 0]);
    var c := Inserted(b, 0, 0, Branch(0));
    assert c.bs == [0, 2, 0];
    assert EraseFirst(c.bs, 0) == [2, 0];
  }

  // ----- relocations torn -----

  function Both(): Rel { Rel(OTHER_REL(0), 0, 2, 0, 0) }

  /** A relocation over two instructions: without the second one the first is no longer relocated. */
  lemma CutTears()
    ensures var b := Loaded([Plain(), Plain()], [Both()], [INVALID, INVALID], [0, 0]);
            RefsOk(b) && Slots(b)[0].pinned && !Slots(Cut(b, 1, 1))[0].pinned
  {
    var b := Loaded([Plain(), Plain()], [Both()], [INVALID, INVALID], [0, 0]);
    assert Covers(b.rels[0], 0);
    assert !Cut(b, 1, 1).live[0];
  }

  /** The same when the second one is the exit at which a block is merged. */
  lemma MergeTears()
    ensures var d := Loaded([Plain(), Branch(0)], [Both()], [0, INVALID], [4, 0]);
            var s := Loaded([], [], [INVALID, INVALID], [0, 0]);
            var c := Merge.Merged(d, s, 1);
            Wf(d) && Wf(s) && |c.code| == 1 && Slots(d)[0].pinned && !Slots(c)[0].pinned
  {
    var d := Loaded([Plain(), Branch(0)], [Both()], [0, INVALID], [4, 0]);
    assert Covers(d.rels[0], 0);
    var s := Loaded([], [], [INVALID, INVALID], [0, 0]);
    var c := Merge.Merged(d, s, 1);
    assert !c.live[0];
  }

  // ----- exits -----

  /** The false exit behind a linked true exit: its B goes with the true exit's tail. */
  lemma FalseExitLost()
    ensures var b := Loaded([Branch(0), Branch(0)], [], [0, 0], [4, 0]);
            && Wf(b) && RemoveTail.Trimmed(b, true, false, Cut(b, 1, 1))
            && |Cut(b, 1, 1).code| == 1 && Cut(b, 1, 1).reset[0] == 0 && Cut(b, 1, 1).target[0] / 4 == 1
            && !Wf(Cut(b, 1, 1))
  {
  }

  function Nop(): Insn { Op(ANDI, 0, 0, 0, 0) }

  function Stub(at: nat): Rel { Rel(LOAD_TB_ADDR, at, 1, 0, 0) }

  /** A two-exit block without successors: each exit's B leads to the stub behind it, and between the
      false exit and its stub stands a nop. */
  function Dangling(): Block {
    Loaded([Op(BNE, 5, 6, 0, 4), Branch(2), Nop(), Plain(), Branch(1), Plain()], [Stub(12), Stub(20)], [0, 0], [4, 16])
  }

  lemma DanglingOk()
    ensures var b := Dangling();
            && Wf(b) && Available(b) && BlockMeanings.TwoExits(b, 0) && FixBranch.BneAimed(b, 0)
            && ExitMeanings.Unlinked(b, 0, false, false) && FixBranch.Nearest(b, 0, 4) && FixBranch.LeadsTo(b, 0, 0)
            && !Covered(b, 2)
  {
    hide PositionsFrom;
    var b := Dangling();
    TwoOf(b.code, ClassB, 1, 4);
    OnlyOne(b.code, ClassBne, 0);
    NoneOf(b.code, ClassOther);
    assert b.bs == [1, 4] && b.bnes == [0] && b.others == [];
  }

  lemma DanglingCut()
    ensures var c := Cut(Dangling(), 2, 1);
            && c.code == [Op(BNE, 5, 6, 0, 4), Branch(2), Plain(), Branch(1), Plain()] && c.rels == [Stub(8), Stub(16)]
            && c.live == [true, true] && c.reset == [0, 0] && c.target == [4, 12]
            && c.bnes == [0]
  {
    hide PositionsFrom;
    OnlyOne(Cut(Dangling(), 2, 1).code, ClassBne, 0);
  }

  lemma DanglingCode()
    ensures var b := Dangling();
            && Shaped(b) && |b.code| == 6 && RemoveNon.IsNop(b.code[2]) && !RemoveNon.IsNop(b.code[0])
            && !RemoveNon.IsNop(b.code[1])
    ensures forall i: Insn :: i.opc != ANDI ==> !RemoveNon.IsNop(i)
    ensures [Op(BNE, 5, 6, 0, 4), Branch(2), Plain(), Branch(1), Plain()][2..] == [Plain(), Branch(1), Plain()]
    ensures Plain().opc == LU12I_W && Branch(1).opc == B
  {
  }

  lemma DanglingNops()
    ensures RemoveNon.AfterNops(Dangling(), 0) == Cut(Dangling(), 2, 1)
    ensures Leads(Dangling(), [Del(2)], Cut(Dangling(), 2, 1))
  {
    hide *;
    DanglingOk();
    DanglingCut();
    DanglingCode();
    var b := Dangling();
    RemoveNon.NopGone(b, 2);
    RemoveNon.NopStep(b, 0);
    RemoveNon.NopStep(b, 1);
    RemoveNon.NopStep(b, 2);
    NoMoreNops(Cut(b, 2, 1), 2);
  }

  lemma {:induction false} NoMoreNops(c: Block, i: nat)
    requires Shaped(c) && i <= |c.code| && forall k :: i <= k < |c.code| ==> !RemoveNon.IsNop(c.code[k])
    ensures RemoveNon.AfterNops(c, i) == c
    decreases |c.code| - i
  {
    hide Covered;
    if i < |c.code| { NoMoreNops(c, i + 1); }
  }

  /** Nop removal moves the stub but not the displacement of the exit's B, and repair leaves a block
      without linked successors alone there: the false exit leads to the true exit. */
  lemma StaleExit(d: Block)
    requires FixBranch.Repaired(RemoveNon.AfterNops(Dangling(), 0), false, false, d)
    ensures Shaped(d) && |d.code| == 5 && d.target == [4, 12] && d.rels == [Stub(8), Stub(16)] && d.live == [true, true]
    ensures d.target[0] / 4 + d.code[1].offs == 3 && d.code[3].opc == B && !FixBranch.LeadsTo(d, 0, 0)
  {
    hide PositionsFrom, Cut, RemoveNon.AfterNops;
    DanglingNops();
    DanglingCut();
  }
}
