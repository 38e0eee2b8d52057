/** lib/Vistor/FixBranchVistor.cpp: recomputes the displacements that deletions made stale. */
module FixBranch {
  import opened Isa
  import opened Blocks
  import opened LinkLists
  import opened Tbs
  import opened Edits

  // ----- the conditional branch -----

  /** The block with the displacement of the branch at position q pointing at position t. */
  function Aimed(b: Block, q: nat, t: nat): Block
    requires q < |b.code|
  {
    b.(code := b.code[q := b.code[q].(offs := t - q)])
  }

  /** The branch at position q is aimed at the true exit. */
  predicate BneAimed(b: Block, q: nat)
    requires Shaped(b) && q < |b.code|
  {
    q + b.code[q].offs == b.target[1] / 4
  }

  /** fix_bne: the last BNE of the block is aimed at the true exit. */
  method FixBne(tb: TB)
    requires tb.Valid() && Wf(tb.View()) && ValidExit(tb.View(), 0) && ValidExit(tb.View(), 1) && tb.View().bnes != []
    modifies tb.insns.Repr
    ensures tb.Valid() && tb.insns.Repr == old(tb.insns.Repr)
    ensures var b := old(tb.View());
            && b.bnes[|b.bnes| - 1] < |b.code|
            && tb.View() == Aimed(b, b.bnes[|b.bnes| - 1], b.target[1] / 4)
  {
    hide RelsFit, RelsApart, Positions;
    ghost var b := tb.View();
    var trueIndex := tb.jmpTarget[1] / 4;
    var curIndex, bneIndex := 0, 0;
    var bneNode: ListNode?<Insn> := null;
    var iter := tb.insns.Begin();
    while iter != tb.insns.tail
      invariant 0 <= curIndex <= tb.insns.size && iter == tb.insns.chain[curIndex + 1]
      invariant tb.Valid() && tb.View() == b
      invariant LastBne(b.code, curIndex, bneNode != null, bneIndex)
      invariant bneNode != null ==> 0 <= bneIndex < curIndex && bneNode == tb.insns.chain[bneIndex + 1]
      decreases tb.insns.size - curIndex
    {
      assert tb.insns.chain[curIndex + 1].next == tb.insns.chain[curIndex + 2];
      assert tb.insns.Contents()[curIndex] == iter.data.value;
      if iter.data.value.opc == BNE {
        bneNode := iter;
        bneIndex := curIndex;
      }
      curIndex := curIndex + 1;
      iter := iter.next;
    }
    LastBneIs(b.code, bneNode != null, bneIndex);
    assert tb.insns.Contents()[bneIndex] == bneNode.data.value;
    tb.SetInsn(bneNode, bneNode.data.value.(offs := trueIndex - bneIndex), bneIndex);
  }

  /** q is the last BNE before position n, if there is one. */
  ghost predicate LastBne(code: seq<Insn>, n: int, found: bool, q: int) {
    && 0 <= n <= |code|
    && (found ==> 0 <= q < n && code[q].opc == BNE && forall k :: q < k < n ==> code[k].opc != BNE)
    && (!found ==> forall k :: 0 <= k < n ==> code[k].opc != BNE)
  }

  lemma LastBneIs(code: seq<Insn>, found: bool, q: int)
    requires LastBne(code, |code|, found, q) && Positions(code, ClassBne) != []
    ensures found && q == Positions(code, ClassBne)[|Positions(code, ClassBne)| - 1]
  {
    var s := Positions(code, ClassBne);
    PositionsSound(code, ClassBne, 0);
    var last := s[|s| - 1];
    assert last in s;
    PositionsComplete(code, ClassBne, 0, q);
    var j :| 0 <= j < |s| && s[j] == q;
    assert s[j] <= last;
  }

  /** A repaired branch lands on the true exit, which is a B, and repair changes nothing that
      positions refer to. */
  lemma AimedLands(b: Block, q: nat)
    requires Wf(b) && ValidExit(b, 1) && b.bnes == [q]
    ensures q < |b.code| && Wf(Aimed(b, q, b.target[1] / 4))
    ensures var c := Aimed(b, q, b.target[1] / 4);
            var land := q + c.code[q].offs;
            && c.code[q].opc == BNE && 0 <= land < |c.code|
            && land == c.target[1] / 4 && c.code[land] == b.code[b.target[1] / 4] && c.code[land].opc == B
  {
    hide RelsFit, RelsApart;
    PositionsSound(b.code, ClassBne, 0);
    assert q in b.bnes;
    assert ExitOk(b, 1);
    AimedWf(b, q, b.target[1] / 4);
  }

  /** Branch repair undoes stale offsets.  If the only BNE of a block was aimed at the true exit
      before any history of peephole edits, then after the edits and fix_bne the same BNE is
      aimed at the same instruction, wherever both have moved. */
  lemma RepairAfterEdits(b: Block, es: seq<Edit>, c: Block, q: nat)
    requires Wf(b) && Leads(b, es, c) && ValidExit(b, 1) && b.bnes == [q] && q < |b.code|
    requires q + b.code[q].offs == b.target[1] / 4
    ensures Wf(c) && |c.bnes| == 1 && c.bnes[0] == Track(es, q) < |c.code| && ValidExit(c, 1)
    ensures var q' := c.bnes[0];
            var d := Aimed(c, q', c.target[1] / 4);
            var land := q' + d.code[q'].offs;
            && d.code[q'].opc == BNE && d.code[q'].(offs := 0) == b.code[q].(offs := 0)
            && 0 <= land < |d.code| && land == Track(es, q + b.code[q].offs)
            && d.code[land] == b.code[q + b.code[q].offs]
  {
    hide Leads, RelsFit, RelsApart;
    LeadsWf(b, es, c);
    LeadsBranches(b, es, c);
    LeadsExit(b, es, c, 1);
    assert ExitOk(b, 1);
    assert b.bnes[0] == q;
    PositionsSound(b.code, ClassBne, 0);
    assert q in b.bnes;
    LeadsInsn(b, es, c, q);
    LeadsInsn(b, es, c, b.target[1] / 4);
    AimedLands(c, c.bnes[0]);
  }

  // ----- exits whose successor is missing -----

  /** A live LOAD_TB_ADDR relocation behind byte offset `from`. */
  predicate Candidate(b: Block, j: int, from: nat)
    requires Shaped(b)
  {
    0 <= j < |b.rels| && b.rels[j].kind == LOAD_TB_ADDR && b.live[j] && from < b.rels[j].tcOffset
  }

  ghost predicate NoCandidate(b: Block, from: nat)
    requires Shaped(b)
  {
    forall j :: !Candidate(b, j, from)
  }

  /** The candidate at j is the nearest one. */
  ghost predicate Nearest(b: Block, j: int, from: nat)
    requires Shaped(b)
  {
    Candidate(b, j, from) && forall k :: Candidate(b, k, from) ==> b.rels[j].tcOffset <= b.rels[k].tcOffset
  }

  /** find_closest_LOAD_TB_ADDR_rel_entry */
  method FindClosest(tb: TB, from: nat) returns (closest: Option<nat>)
    requires tb.Valid()
    ensures closest.Some? ==> Nearest(tb.View(), closest.value, from)
    ensures closest.None? ==> NoCandidate(tb.View(), from)
    ensures forall j ::
              0 <= j < |tb.rels| && tb.rels[j].kind == LOAD_TB_ADDR && tb.relsValid[j] && tb.rels[j].tcOffset > from ==>
              closest.Some? && closest.value < |tb.rels| && tb.rels[closest.value].tcOffset <= tb.rels[j].tcOffset
    ensures closest.Some? ==>
              var j := closest.value;
              j < |tb.rels| && tb.rels[j].kind == LOAD_TB_ADDR && tb.relsValid[j] && tb.rels[j].tcOffset > from
  {
    closest := None;
    for i := 0 to |tb.rels|
      invariant closest.Some? ==> closest.value < i && Candidate(tb.View(), closest.value, from)
      invariant closest.Some? ==>
                  forall j :: 0 <= j < i && Candidate(tb.View(), j, from) ==>
                    tb.rels[closest.value].tcOffset <= tb.rels[j].tcOffset
      invariant closest.None? ==> forall j :: 0 <= j < i ==> !Candidate(tb.View(), j, from)
    {
      if tb.rels[i].kind == LOAD_TB_ADDR && tb.relsValid[i] && from < tb.rels[i].tcOffset {
        if closest.None? || tb.rels[i].tcOffset < tb.rels[closest.value].tcOffset {
          closest := Some(i);
        }
      }
    }
    forall j | 0 <= j < |tb.rels| && tb.rels[j].kind == LOAD_TB_ADDR && tb.relsValid[j] && tb.rels[j].tcOffset > from
      ensures closest.Some? && tb.rels[closest.value].tcOffset <= tb.rels[j].tcOffset
    {
      assert Candidate(tb.View(), j, from);
    }
  }

  /** The B of exit w leads to the first instruction of relocation j. */
  predicate LeadsTo(b: Block, w: nat, j: nat)
    requires Shaped(b) && w < 2
  {
    && b.target[w] / 4 < |b.code| && j < |b.rels|
    && b.target[w] / 4 + b.code[b.target[w] / 4].offs == b.rels[j].tcOffset / 4
  }

  /** What repairing exit w does: its B is aimed at the nearest candidate behind it, or stays. */
  ghost predicate ExitAimed(b: Block, w: nat, c: Block)
    requires Shaped(b) && w < 2
  {
    var t := b.target[w];
    && t / 4 < |b.code|
    && if NoCandidate(b, t) then c == b
       else exists j :: Nearest(b, j, t) && c == Aimed(b, t / 4, b.rels[j].tcOffset / 4)
  }

  lemma AimedAt(b: Block, w: nat, j: nat)
    requires Wf(b) && w < 2 && ValidExit(b, w) && Nearest(b, j, b.target[w])
    ensures b.target[w] / 4 < |b.code| && j < |b.rels| && b.target[w] < b.rels[j].tcOffset
    ensures (b.rels[j].tcOffset - b.target[w]) / 4 == b.rels[j].tcOffset / 4 - b.target[w] / 4
    ensures ExitAimed(b, w, Aimed(b, b.target[w] / 4, b.rels[j].tcOffset / 4))
  {
    hide RelsApart, BranchExact;
    assert ExitOk(b, w) && RelFits(b.rels[j], |b.code|);
  }

  lemma NotAimed(b: Block, w: nat)
    requires Wf(b) && w < 2 && ValidExit(b, w) && NoCandidate(b, b.target[w])
    ensures ExitAimed(b, w, b)
  {
    assert ExitOk(b, w);
  }

  /** __fix_b */
  method FixExit(tb: TB, w: nat)
    requires tb.Valid() && Wf(tb.View()) && w < 2 && ValidExit(tb.View(), w)
    modifies tb.insns.Repr
    ensures tb.Valid() && tb.insns.Repr == old(tb.insns.Repr)
    ensures ExitAimed(old(tb.View()), w, tb.View())
  {
    hide RelsFit, RelsApart, BranchExact, Candidate, Nearest, NoCandidate, ExitAimed;
    ghost var b := tb.View();
    assert ExitOk(b, w);
    var offset := tb.jmpTarget[w];
    var node := tb.insns.Get(offset / 4);
    assert tb.insns.Contents()[offset / 4] == node.data.value;
    var closest := FindClosest(tb, offset);
    if closest.None? {
      NotAimed(b, w);
    } else {
      AimedAt(b, w, closest.value);
      var rel := tb.rels[closest.value];
      tb.SetInsn(node, node.data.value.(offs := (rel.tcOffset - offset) / 4), offset / 4);
    }
  }

  /** An aimed exit still leaves the block well formed. */
  lemma AimedWf(b: Block, q: nat, t: nat)
    requires Wf(b) && q < |b.code|
    ensures Wf(Aimed(b, q, t))
  {
    hide RelFits, Apart;
    var c := Aimed(b, q, t);
    SameClasses(b.code, c.code, ClassB, 0);
    SameClasses(b.code, c.code, ClassBne, 0);
    SameClasses(b.code, c.code, ClassOther, 0);
    assert forall w :: 0 <= w < 2 ==> ExitOk(b, w) && ExitOk(c, w);
  }

  /** Which repairs visit makes: the BNE if both exits are valid; then, if exactly one successor
      is linked, the exit of the other. */
  ghost predicate Repaired(b: Block, trueLinked: bool, falseLinked: bool, c: Block)
    requires Shaped(b)
  {
    var m := if ValidExit(b, 0) && ValidExit(b, 1) && b.bnes != [] && b.bnes[|b.bnes| - 1] < |b.code|
             then Aimed(b, b.bnes[|b.bnes| - 1], b.target[1] / 4) else b;
    if trueLinked == falseLinked then c == m
    else if !falseLinked && ValidExit(b, 0) then ExitAimed(m, 0, c)
    else if !trueLinked && ValidExit(b, 1) then ExitAimed(m, 1, c)
    else c == m
  }

  lemma ExitAimedWf(m: Block, w: nat, c: Block)
    requires Wf(m) && w < 2 && ExitAimed(m, w, c)
    ensures Wf(c) && |c.code| == |m.code| && c.reset == m.reset && c.target == m.target && c.rels == m.rels
    ensures c.live == m.live
    ensures c.bnes == m.bnes
  {
    hide RelsFit, RelsApart, ExitsAligned, BranchExact, ExitOk, NoCandidate;
    if !NoCandidate(m, m.target[w]) {
      var j :| Nearest(m, j, m.target[w]) && c == Aimed(m, m.target[w] / 4, m.rels[j].tcOffset / 4);
      AimedWf(m, m.target[w] / 4, m.rels[j].tcOffset / 4);
    }
  }

  /** It leaves the block well formed, and what is not code as it was. */
  lemma RepairedWf(b: Block, t: bool, f: bool, c: Block)
    requires Wf(b) && Repaired(b, t, f, c)
    ensures Wf(c) && |c.code| == |b.code| && c.reset == b.reset && c.target == b.target && c.rels == b.rels
    ensures c.live == b.live
    ensures c.bnes == b.bnes
  {
    hide RelsFit, RelsApart, ExitsAligned, BranchExact, ExitOk, ExitAimed;
    var m := b;
    if ValidExit(b, 0) && ValidExit(b, 1) && b.bnes != [] && b.bnes[|b.bnes| - 1] < |b.code| {
      m := Aimed(b, b.bnes[|b.bnes| - 1], b.target[1] / 4);
      AimedWf(b, b.bnes[|b.bnes| - 1], b.target[1] / 4);
    }
    if t != f && ValidExit(b, if t then 0 else 1) {
      ExitAimedWf(m, if t then 0 else 1, c);
    }
  }

  /** visit */
  method Visit(tb: TB)
    requires tb.Valid() && Wf(tb.View())
    requires ValidExit(tb.View(), 0) && ValidExit(tb.View(), 1) ==> tb.View().bnes != []
    modifies tb.insns.Repr
    ensures tb.Valid() && tb.insns.Repr == old(tb.insns.Repr)
    ensures Repaired(old(tb.View()), tb.trueBranch != null, tb.falseBranch != null, tb.View())
  {
    hide Wf, ExitAimed, Aimed;
    ghost var b := tb.View();
    if tb.jmpReset[0] != INVALID && tb.jmpReset[1] != INVALID {
      LastBneInCode(b);
      FixBne(tb);
      AimedWf(b, b.bnes[|b.bnes| - 1], b.target[1] / 4);
    }
    if !(tb.trueBranch == null && tb.falseBranch == null) && (tb.trueBranch == null || tb.falseBranch == null) {
      if tb.falseBranch == null && tb.jmpReset[0] != INVALID {
        FixExit(tb, 0);
      } else if tb.trueBranch == null && tb.jmpReset[1] != INVALID {
        FixExit(tb, 1);
      }
    }
  }

  /** The branch and the exit that repair would aim are already right: the last BNE on the true exit, and
      the B of the exit on its nearest candidate, if it has one. */
  ghost predicate AlreadyAimed(b: Block, t: bool, f: bool)
    requires Shaped(b)
  {
    && (ValidExit(b, 0) && ValidExit(b, 1) && b.bnes != [] && b.bnes[|b.bnes| - 1] < |b.code| ==>
          BneAimed(b, b.bnes[|b.bnes| - 1]))
    && (forall j: nat :: t && !f && ValidExit(b, 0) && Nearest(b, j, b.target[0]) ==> LeadsTo(b, 0, j))
    && (forall j: nat :: f && !t && ValidExit(b, 1) && Nearest(b, j, b.target[1]) ==> LeadsTo(b, 1, j))
  }

  lemma AimedSame(b: Block, q: nat, t: nat)
    requires q < |b.code|
    ensures Aimed(b, q, t) == b <==> q + b.code[q].offs == t
  {
    assert Aimed(b, q, t) == b ==> Aimed(b, q, t).code[q] == b.code[q];
  }

  lemma BneElsewhere(c: Block, x: nat)
    requires Wf(c) && c.bnes != [] && x < |c.code| && c.code[x].opc == B
    ensures c.bnes[|c.bnes| - 1] < |c.code| && c.bnes[|c.bnes| - 1] != x
  {
    PositionsSound(c.code, ClassBne, 0);
    assert c.bnes[|c.bnes| - 1] in c.bnes;
  }

  lemma SameCandidates(c: Block, m: Block, from: nat)
    requires Shaped(c) && Shaped(m) && m.rels == c.rels && m.live == c.live
    ensures NoCandidate(m, from) == NoCandidate(c, from)
    ensures forall j :: Nearest(m, j, from) == Nearest(c, j, from)
  {
    assert forall j :: Candidate(m, j, from) == Candidate(c, j, from);
  }

  lemma ExitSame(b: Block, w: nat, c: Block)
    requires Wf(b) && w < 2 && ValidExit(b, w) && ExitAimed(b, w, c)
    ensures c == b <==> forall j: nat :: Nearest(b, j, b.target[w]) ==> LeadsTo(b, w, j)
    ensures |c.code| == |b.code| && b.target[w] / 4 < |b.code| && b.code[b.target[w] / 4].opc == B
    ensures forall k :: 0 <= k < |b.code| && k != b.target[w] / 4 ==> c.code[k] == b.code[k]
  {
    hide RelsFit, RelsApart, BranchExact;
    assert ExitOk(b, w);
    if !NoCandidate(b, b.target[w]) {
      var j :| Nearest(b, j, b.target[w]) && c == Aimed(b, b.target[w] / 4, b.rels[j].tcOffset / 4);
      AimedSame(b, b.target[w] / 4, b.rels[j].tcOffset / 4);
      assert forall i: nat :: Nearest(b, i, b.target[w]) ==>
               Candidate(b, i, b.target[w]) && Candidate(b, j, b.target[w]);
    }
  }

  /** On every block the driver gives it, also one that no pass has touched: repair changes nothing if and
      only if what it aims is already right. */
  lemma RepairIdle(b: Block, t: bool, f: bool, d: Block)
    requires Wf(b) && Repaired(b, t, f, d)
    ensures d == b <==> AlreadyAimed(b, t, f)
  {
    hide RelsFit, RelsApart, BranchExact, ExitAimed, Nearest, Candidate, LeadsTo;
    var both := ValidExit(b, 0) && ValidExit(b, 1) && b.bnes != [] && b.bnes[|b.bnes| - 1] < |b.code|;
    var m := b;
    if both {
      var q := b.bnes[|b.bnes| - 1];
      m := Aimed(b, q, b.target[1] / 4);
      AimedWf(b, q, b.target[1] / 4);
      AimedSame(b, q, b.target[1] / 4);
    }
    if t != f {
      var w := if t then 0 else 1;
      if ValidExit(b, w) {
        ExitSame(m, w, d);
        AimedLeads(b, m, w);
        if both {
          BneElsewhere(m, m.target[w] / 4);
          assert d.code[b.bnes[|b.bnes| - 1]] == m.code[b.bnes[|b.bnes| - 1]];
        }
      }
    }
  }

  /** Aiming the BNE does not change where an exit leads, nor which stub is nearest. */
  lemma AimedLeads(b: Block, m: Block, w: nat)
    requires Wf(b) && Wf(m) && w < 2 && ValidExit(b, w)
    requires b != m ==>
               b.bnes != [] && b.bnes[|b.bnes| - 1] < |b.code| && m == Aimed(b, b.bnes[|b.bnes| - 1], b.target[1] / 4)
    ensures forall j: nat :: Nearest(m, j, m.target[w]) == Nearest(b, j, b.target[w])
    ensures forall j: nat :: LeadsTo(m, w, j) == LeadsTo(b, w, j)
  {
    hide RelsFit, RelsApart, BranchExact, Nearest, Candidate;
    assert ExitOk(b, w);
    if b.bnes != [] { BneElsewhere(b, b.target[w] / 4); }
    SameCandidates(b, m, b.target[w]);
  }

  lemma LastBneInCode(b: Block)
    requires Wf(b) && b.bnes != []
    ensures b.bnes[|b.bnes| - 1] < |b.code|
  {
    PositionsSound(b.code, ClassBne, 0);
    assert b.bnes[|b.bnes| - 1] in b.bnes;
  }

  // ----- what repair does, in terms of code, exits and relocations alone -----

  /** With both exits valid the last BNE ends up on the true exit, whichever successors are linked. */
  lemma RepairAimsBne(b: Block, t: bool, f: bool, c: Block, q: nat)
    requires Wf(b) && Repaired(b, t, f, c) && b.reset[0] != 0xffff && b.reset[1] != 0xffff
    requires q < |b.code| && b.code[q].opc == BNE && forall i :: q < i < |b.code| ==> b.code[i].opc != BNE
    ensures q < |c.code| && q + c.code[q].offs == b.target[1] / 4
  {
    hide RelsFit, RelsApart, ExitAimed, Positions;
    LastBneAt(b.code, q);
    var m := Aimed(b, q, b.target[1] / 4);
    AimedWf(b, q, b.target[1] / 4);
    if t != f {
      ExitSame(m, if t then 0 else 1, c);
    }
  }

  lemma LastBneAt(code: seq<Insn>, q: nat)
    requires q < |code| && code[q].opc == BNE && forall i :: q < i < |code| ==> code[i].opc != BNE
    ensures var s := Positions(code, ClassBne); s != [] && s[|s| - 1] == q
  {
    var s := Positions(code, ClassBne);
    PositionsSound(code, ClassBne, 0);
    LastListed(code, ClassBne, q);
    assert s[|s| - 1] in s;
  }

  /** The exit of the missing successor, if the other one is linked, ends up on the next live LOAD_TB_ADDR
      relocation behind it. */
  lemma RepairAimsExit(b: Block, t: bool, f: bool, c: Block, w: nat, j: nat)
    requires Wf(b) && Repaired(b, t, f, c) && w < 2 && b.reset[w] != 0xffff
    requires if w == 0 then t && !f else f && !t
    requires j < |b.rels| && b.rels[j].kind == LOAD_TB_ADDR && b.live[j] && b.rels[j].tcOffset > b.target[w]
    requires forall k :: 0 <= k < |b.rels| && b.rels[k].kind == LOAD_TB_ADDR && b.live[k] ==>
                           b.rels[k].tcOffset <= b.target[w] || b.rels[j].tcOffset <= b.rels[k].tcOffset
    ensures b.target[w] / 4 < |c.code|
    ensures b.target[w] / 4 + c.code[b.target[w] / 4].offs == b.rels[j].tcOffset / 4
  {
    hide RelsFit, RelsApart, ExitsAligned, BranchExact, ExitAimed;
    assert Candidate(b, j, b.target[w]) && Nearest(b, j, b.target[w]);
    hide Nearest, Candidate;
    var both := ValidExit(b, 0) && ValidExit(b, 1) && b.bnes != [] && b.bnes[|b.bnes| - 1] < |b.code|;
    var m := if both then Aimed(b, b.bnes[|b.bnes| - 1], b.target[1] / 4) else b;
    SameCandidates(b, m, b.target[w]);
    ExitAimedAt(m, w, c, j);
  }

  lemma ExitAimedAt(m: Block, w: nat, c: Block, j: nat)
    requires Shaped(m) && w < 2 && ExitAimed(m, w, c) && Nearest(m, j, m.target[w])
    ensures j < |m.rels| && m.target[w] / 4 < |c.code|
    ensures m.target[w] / 4 + c.code[m.target[w] / 4].offs == m.rels[j].tcOffset / 4
  {
    var i :| Nearest(m, i, m.target[w]) && c == Aimed(m, m.target[w] / 4, m.rels[i].tcOffset / 4);
    assert m.rels[i].tcOffset == m.rels[j].tcOffset;
  }

  /** Nothing else changes, and of those two instructions only the displacement. */
  lemma RepairElsewhere(b: Block, t: bool, f: bool, c: Block, i: nat)
    requires Wf(b) && Repaired(b, t, f, c) && i < |b.code|
    ensures |c.code| == |b.code| && c.code[i] == b.code[i].(offs := c.code[i].offs)
    ensures c.code[i] != b.code[i] ==>
              || (&& b.reset[0] != 0xffff && b.reset[1] != 0xffff && b.code[i].opc == BNE
                  && forall k :: i < k < |b.code| ==> b.code[k].opc != BNE)
              || (t && !f && b.reset[0] != 0xffff && i == b.target[0] / 4)
              || (f && !t && b.reset[1] != 0xffff && i == b.target[1] / 4)
  {
    hide RelsFit, RelsApart, Positions, Candidate;
    if b.bnes != [] {
      LastBneBehind(b.code);
    }
  }

  lemma LastBneBehind(code: seq<Insn>)
    requires Positions(code, ClassBne) != []
    ensures var s := Positions(code, ClassBne);
            var q := s[|s| - 1];
            q < |code| && code[q].opc == BNE && forall k :: q < k < |code| ==> code[k].opc != BNE
  {
    var s := Positions(code, ClassBne);
    PositionsSound(code, ClassBne, 0);
    assert s[|s| - 1] in s;
    forall k | s[|s| - 1] < k < |code|
      ensures code[k].opc != BNE
    {
      if code[k].opc == BNE {
        LastListed(code, ClassBne, k);
      }
    }
  }
}
