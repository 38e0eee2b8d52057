/** The constant passes on the heap: the substitution of lib/Vistor/util.cpp, the inner loop
    `opt_lu12i_ori_parttern` / `opt_lu12i_ori_lu32i_pattern`, and `visit`. */
module ConstVisitors {
  import opened Isa
  import opened Blocks
  import opened LinkLists
  import opened Tbs
  import opened SlotViews
  import opened Peephole
  import opened ConstFold
  import opened ConstPasses
  import opened ConstRegSets

  /** substitue_with_addi_insn: the first of `count` instructions becomes an `addi.d`, the
      others are deleted, along with any relocation on them. */
  method Substitute(tb: TB, node: ListNode<Insn>, count: nat, src: Reg, imm: int, cur: nat)
    requires tb.Valid() && Wf(tb.View()) && Holds(tb, At(node, cur)) && 1 <= count && cur + count <= |tb.View().code|
    modifies tb`rels, tb`relsValid, tb`jmpTarget, tb`bInsns, tb`bneInsns, tb`otherBInsns, tb.insns, tb.insns.Repr
    ensures tb.Valid() && tb.insns.Repr == old(tb.insns.Repr) && Holds(tb, At(node, cur))
    ensures tb.View() == Rebuilt(old(tb.View()), cur, count, AddiInsn(old(tb.View()).code[cur].dst, src, imm))
  {
    hide RelsFit, RelsApart, ExitsAligned, BranchExact, ExitOk, Cut;
    var dst := node.data.value.dst;
    assert tb.insns.Contents()[cur] == node.data.value;
    var next := Next(tb, node, cur);
    ghost var ch := tb.insns.chain;
    next := tb.DeleteRun(next, cur + 1, count - 1);
    assert tb.insns.chain[cur + 1] == tb.insns.chain[..cur + 2][cur + 1] == ch[..cur + 2][cur + 1];
    tb.SetInsn(node, AddiInsn(dst, src, imm), cur);
  }

  // ----- patterns and values -----

  lemma GroupShape(g: Shape, s: seq<Slot>, p: nat)
    requires p <= |s|
    ensures GroupAt(g, s[p..]) <==>
              && p + 1 < |s| && s[p].insn.opc == LU12I_W
              && s[p + 1].insn.opc == ORI && s[p + 1].insn.dst == s[p].insn.dst == s[p + 1].insn.src
              && (g.LuOri? || (p + 2 < |s| && s[p + 2].insn.opc == LU32I_D && s[p + 2].insn.dst == s[p].insn.dst))
  {
  }

  /** is_lu12i_ori_pattern / is_lu12i_ori_lu32i_pattern */
  method IsPattern(g: Shape, tb: TB, node: ListNode<Insn>, ghost p: nat) returns (r: bool)
    requires tb.Valid() && Holds(tb, At(node, p)) && p <= |Slots(tb.View())|
    ensures r == GroupAt(g, Slots(tb.View())[p..])
  {
    hide *;
    GroupShape(g, Slots(tb.View()), p);
    var a := DataOf(tb, node, p);
    if a == None || a.value.opc != LU12I_W {
      return false;
    }
    var node1 := Next(tb, node, p);
    var b := DataOf(tb, node1, p + 1);
    if b == None || b.value.opc != ORI || b.value.dst != a.value.dst || b.value.src != a.value.dst {
      return false;
    }
    if g.LuOri? {
      return true;
    }
    var node2 := Next(tb, node1, p + 1);
    var c := DataOf(tb, node2, p + 2);
    return c.Some? && c.value.opc == LU32I_D && c.value.dst == a.value.dst;
  }

  /** node->data, absent for the sentinel behind the last instruction. */
  method DataOf(tb: TB, node: ListNode<Insn>, ghost p: nat) returns (d: Option<Insn>)
    requires tb.Valid() && Holds(tb, At(node, p))
    ensures p <= |Slots(tb.View())|
    ensures d == if p < |Slots(tb.View())| then Some(Slots(tb.View())[p].insn) else None
  {
    AtEnd(tb, node, p);
    d := node.data;
    if d.Some? {
      assert tb.insns.Contents()[p] == d.value;
    }
  }

  /** get_lu12i_ori_res / get_lu12i_ori_lu32i_res */
  method GetRes(g: Shape, tb: TB, node: ListNode<Insn>, ghost p: nat) returns (v: int)
    requires tb.Valid() && Holds(tb, At(node, p)) && p <= |Slots(tb.View())| && GroupAt(g, Slots(tb.View())[p..])
    ensures v == Value(g, Slots(tb.View())[p..])
  {
    ghost var s := Slots(tb.View());
    var node1 := Next(tb, node, p);
    var a := InsnOf(tb, node, p);
    var b := InsnOf(tb, node1, p + 1);
    v := SimulateLu12i(a.si);
    v := SimulateOri(v, b.ui);
    if g.LuOriLu32? {
      var node2 := Next(tb, node1, p + 1);
      var c := InsnOf(tb, node2, p + 2);
      v := SimulateLu32i(v, c.si);
    }
  }

  lemma SourceStep(K: Consts, c: int, i: nat)
    requires i < 32
    ensures Source(K, c, i) == if i in K && Near(c - K[i]) then Some(i) else Source(K, c, i + 1)
  {
  }

  lemma SourceEnd(K: Consts, c: int)
    ensures Source(K, c, 32) == None
  {
  }

  /** The loop over registers 1 to 31. */
  method FindSource(cs: ConstRegSet, c: int) returns (src: Option<Reg>, imm: int)
    requires cs.Valid()
    ensures src == Source(cs.Map(), c, 1)
    ensures src.Some? ==> imm == c - cs.Map()[src.value]
  {
    hide *;
    var i := 1;
    SourceEnd(cs.Map(), c);
    while i < 32
      invariant 1 <= i <= 32 && Source(cs.Map(), c, 1) == Source(cs.Map(), c, i)
    {
      SourceStep(cs.Map(), c, i);
      var known := cs.IsConst(i);
      if known {
        var k := cs.Get(i);
        if Near(c - k) {
          return Some(i), c - k;
        }
      }
      i := i + 1;
    }
    return None, 0;
  }

  /** Whether the inner loop takes the group at node. */
  method Matches(g: Shape, tb: TB, node: ListNode<Insn>, cur: nat) returns (r: bool)
    requires tb.Valid() && Wf(tb.View()) && Holds(tb, At(node, cur)) && cur <= |Slots(tb.View())|
    ensures r == Takes(g, Slots(tb.View())[cur..], true)
  {
    r := IsPattern(g, tb, node, cur);
    if r && g.LuOri? {
      var inScope := tb.InScopeOfRel(cur, 2);
      PairCovered(tb.View(), cur);
      r := !inScope;
    }
  }

  lemma PairCovered(b: Block, cur: nat)
    requires Wf(b) && cur + 2 <= |b.code|
    ensures (exists j :: 0 <= j < |b.rels| && b.live[j] && Overlaps(b.rels[j], cur, 2))
        <==> Slots(b)[cur].pinned || Slots(b)[cur + 1].pinned
  {
    forall j | 0 <= j < |b.rels| && b.live[j]
      ensures Overlaps(b.rels[j], cur, 2) <==> Covers(b.rels[j], cur) || Covers(b.rels[j], cur + 1)
    {
      assert RelFits(b.rels[j], |b.code|);
    }
  }

  // ----- the loops -----

  /** node->next->next, and once more for the longer group. */
  method Advance(g: Shape, tb: TB, node: ListNode<Insn>, ghost p: nat) returns (node': ListNode<Insn>)
    requires tb.Valid() && Holds(tb, At(node, p)) && p + g.Len() <= |Slots(tb.View())|
    ensures Holds(tb, At(node', p + g.Len()))
  {
    node' := Next(tb, node, p);
    node' := Next(tb, node', p + 1);
    if g.LuOriLu32? {
      node' := Next(tb, node', p + 2);
    }
  }

  /** Taking a group whose constant is near a known one: it becomes one addi.d. */
  method Shorten(g: Shape, tb: TB, node: ListNode<Insn>, cur: nat, src: Reg, imm: int, ghost K: Consts)
    returns (node': ListNode<Insn>)
    requires tb.Valid() && Wf(tb.View()) && Holds(tb, At(node, cur)) && cur < |tb.View().code|
    requires Takes(g, Slots(tb.View())[cur..], true) && GroupAt(g, Slots(tb.View())[cur..])
    requires Source(K, Value(g, Slots(tb.View())[cur..]), 1) == Some(src)
    requires src in K && imm == Value(g, Slots(tb.View())[cur..]) - K[src]
    modifies tb`rels, tb`relsValid, tb`jmpTarget, tb`bInsns, tb`bneInsns, tb`otherBInsns, tb.insns, tb.insns.Repr
    ensures tb.Valid() && Wf(tb.View()) && tb.insns.Repr == old(tb.insns.Repr) && Holds(tb, At(node', cur + 1))
    ensures var b := old(tb.View());
            && cur < |tb.View().code| < |b.code|
            && AfterPass(g, tb.View(), cur + 1, Record(K, b.code[cur].dst, Value(g, Slots(b)[cur..])), true)
                 == AfterPass(g, b, cur, K, true)
  {
    hide *;
    StepTake(g, tb.View(), cur, K, true);
    GroupPlain(g, tb.View(), cur);
    ShortWf(g, tb.View(), cur, tb.View().code[cur].dst, src, imm);
    Substitute(tb, node, g.Len(), src, imm, cur);
    node' := Next(tb, node, cur);
  }

  /** One round of the inner loop that takes a group. */
  method TakeGroup(g: Shape, tb: TB, node: ListNode<Insn>, cur: nat, cs: ConstRegSet)
    returns (node': ListNode<Insn>, cur': nat)
    requires tb.Valid() && Wf(tb.View()) && Holds(tb, At(node, cur)) && cur < |tb.View().code|
    requires cs.Valid() && Takes(g, Slots(tb.View())[cur..], true)
    modifies tb`rels, tb`relsValid, tb`jmpTarget, tb`bInsns, tb`bneInsns, tb`otherBInsns, tb.insns, tb.insns.Repr
    modifies cs, cs.regs, cs.isConst
    ensures tb.Valid() && Wf(tb.View()) && tb.insns.Repr == old(tb.insns.Repr) && Holds(tb, At(node', cur'))
    ensures cs.Valid()
    ensures cur' <= |tb.View().code| && |tb.View().code| - cur' < |old(tb.View()).code| - cur
    ensures AfterPass(g, tb.View(), cur', cs.Map(), true) == AfterPass(g, old(tb.View()), cur, old(cs.Map()), true)
  {
    hide *;
    StepTake(g, tb.View(), cur, cs.Map(), true);
    var first := InsnOf(tb, node, cur);
    var c := GetRes(g, tb, node, cur);
    node', cur' := PlaceGroup(g, tb, node, cur, cs, c);
    cs.Set(first.dst, c);
  }

  /** The loop over the registers, and what is done with its result. */
  method PlaceGroup(g: Shape, tb: TB, node: ListNode<Insn>, cur: nat, cs: ConstRegSet, c: int)
    returns (node': ListNode<Insn>, cur': nat)
    requires tb.Valid() && Wf(tb.View()) && Holds(tb, At(node, cur)) && cur < |tb.View().code|
    requires cs.Valid() && Takes(g, Slots(tb.View())[cur..], true)
    requires GroupAt(g, Slots(tb.View())[cur..]) && c == Value(g, Slots(tb.View())[cur..])
    modifies tb`rels, tb`relsValid, tb`jmpTarget, tb`bInsns, tb`bneInsns, tb`otherBInsns, tb.insns, tb.insns.Repr
    ensures tb.Valid() && Wf(tb.View()) && tb.insns.Repr == old(tb.insns.Repr) && Holds(tb, At(node', cur'))
    ensures cur' <= |tb.View().code| && |tb.View().code| - cur' < |old(tb.View()).code| - cur
    ensures AfterPass(g, tb.View(), cur', Record(cs.Map(), old(tb.View()).code[cur].dst, c), true)
              == AfterPass(g, old(tb.View()), cur, cs.Map(), true)
  {
    hide *;
    StepTake(g, tb.View(), cur, cs.Map(), true);
    var src, imm := FindSource(cs, c);
    if src.Some? {
      node' := Shorten(g, tb, node, cur, src.value, imm, cs.Map());
      cur' := cur + 1;
    } else {
      node' := Advance(g, tb, node, cur);
      cur' := cur + g.Len();
    }
  }

  lemma ShortWf(g: Shape, b: Block, p: nat, d: Reg, src: Reg, imm: int)
    requires Wf(b) && p + g.Len() <= |b.code| && g.Len() >= 2
    requires forall q :: p <= q < p + g.Len() ==> ClassOf(b.code[q].opc) == NotBranch
    ensures Shaped(b) && Wf(Rebuilt(b, p, g.Len(), AddiInsn(d, src, imm)))
  {
    hide Wf;
    RebuiltWf(b, p, g.Len(), AddiInsn(d, src, imm));
  }

  /** One round of the inner loop that moves past an instruction: its destination is no longer
      known to be constant, and without any known constant the loop is done. */
  method SkipInsn(g: Shape, tb: TB, node: ListNode<Insn>, cur: nat, cs: ConstRegSet, i: Insn)
    returns (node': ListNode<Insn>, done: bool)
    requires tb.Valid() && Wf(tb.View()) && Holds(tb, At(node, cur)) && cur < |tb.View().code|
    requires i == tb.View().code[cur]
    requires cs.Valid() && !Takes(g, Slots(tb.View())[cur..], true) && !StopsPass(i.opc)
    modifies cs, cs.isConst
    ensures Holds(tb, At(node', cur + 1)) && cs.Valid() && (done ==> cs.Map() == map[])
    ensures AfterPass(g, tb.View(), cur + 1, cs.Map(), !done) == AfterPass(g, tb.View(), cur, old(cs.Map()), true)
  {
    hide *;
    StepSkip(g, tb.View(), cur, cs.Map(), true);
    KilledInner(cs.Map(), i.dst);
    cs.Kill(i.dst);
    node' := Next(tb, node, cur);
    done := cs.size == 0;
    if done { EmptyMap(cs.Map()); }
  }

  lemma KilledInner(K: Consts, r: Reg)
    ensures Killed(K, r, true) == K - {r} && (|K - {r}| != 0 ==> K - {r} != map[])
  {
  }

  lemma EmptyMap(K: Consts)
    requires |K| == 0
    ensures K == map[]
  {
  }

  /** The visitor is at the end of the code, at a B or at a BNE. */
  ghost predicate Over(b: Block, p: nat) { p == |b.code| || (p < |b.code| && StopsPass(b.code[p].opc)) }

  lemma IsOver(g: Shape, b: Block, p: nat, K: Consts, inner: bool)
    requires Shaped(b) && p <= |b.code|
    ensures p == |b.code| || StopsPass(b.code[p].opc) ==> Over(b, p) && AfterPass(g, b, p, K, inner) == b
    ensures Over(b, p) && p < |b.code| ==> StopsPass(b.code[p].opc)
    ensures p < |b.code| && StopsPass(b.code[p].opc) ==> !Takes(g, Slots(b)[p..], true)
  {
    hide AfterPass;
    if p == |b.code| || StopsPass(b.code[p].opc) {
      StepStop(g, b, p, K, inner);
      if p < |b.code| { GroupNotStop(g, Slots(b), p, true); }
    }
  }

  /** opt_lu12i_ori_parttern / opt_lu12i_ori_lu32i_pattern: returns at a B or BNE, at the end, or
      as soon as no constant is known any more. */
  method InnerLoop(g: Shape, tb: TB, node: ListNode<Insn>, cur: nat, cs: ConstRegSet)
    returns (node': ListNode<Insn>, cur': nat)
    requires tb.Valid() && Wf(tb.View()) && Holds(tb, At(node, cur)) && cur <= |tb.View().code| && cs.Valid()
    modifies tb`rels, tb`relsValid, tb`jmpTarget, tb`bInsns, tb`bneInsns, tb`otherBInsns, tb.insns, tb.insns.Repr
    modifies cs, cs.regs, cs.isConst
    ensures tb.Valid() && Wf(tb.View()) && tb.insns.Repr == old(tb.insns.Repr)
    ensures Holds(tb, At(node', cur')) && cs.Valid() && cur' <= |tb.View().code|
    ensures |tb.View().code| - cur' <= |old(tb.View()).code| - cur
    ensures var goal := AfterPass(g, old(tb.View()), cur, old(cs.Map()), true);
            || (Over(tb.View(), cur') && tb.View() == goal)
            || (cs.Map() == map[] && AfterPass(g, tb.View(), cur', map[], false) == goal)
  {
    hide *;
    ghost var goal := AfterPass(g, tb.View(), cur, cs.Map(), true);
    node', cur' := node, cur;
    while true
      invariant tb.Valid() && Wf(tb.View()) && tb.insns.Repr == old(tb.insns.Repr)
      invariant Holds(tb, At(node', cur')) && cs.Valid() && cur' <= |tb.View().code|
      invariant AfterPass(g, tb.View(), cur', cs.Map(), true) == goal
      invariant |tb.View().code| - cur' <= |old(tb.View()).code| - cur
      decreases |tb.View().code| - cur'
    {
      IsOver(g, tb.View(), cur', cs.Map(), true);
      var d := DataOf(tb, node', cur');
      if d == None {
        return;
      }
      var take := Matches(g, tb, node', cur');
      if take {
        node', cur' := TakeGroup(g, tb, node', cur', cs);
      } else {
        if StopsPass(d.value.opc) {
          return;
        }
        var done;
        node', done := SkipInsn(g, tb, node', cur', cs, d.value);
        cur' := cur' + 1;
        if done {
          return;
        }
      }
    }
  }

  /** visit, on any well-formed block. */
  method Visit(g: Shape, tb: TB)
    requires tb.Valid() && Wf(tb.View())
    modifies tb`rels, tb`relsValid, tb`jmpTarget, tb`bInsns, tb`bneInsns, tb`otherBInsns, tb.insns, tb.insns.Repr
    ensures tb.Valid() && Wf(tb.View()) && tb.insns.Repr == old(tb.insns.Repr)
    ensures tb.View() == AfterPass(g, old(tb.View()), 0, map[], false)
  {
    var iter := tb.insns.Begin();
    VisitFrom(g, tb, iter);
  }

  method VisitFrom(g: Shape, tb: TB, first: ListNode<Insn>)
    requires tb.Valid() && Wf(tb.View()) && Holds(tb, At(first, 0))
    modifies tb`rels, tb`relsValid, tb`jmpTarget, tb`bInsns, tb`bneInsns, tb`otherBInsns, tb.insns, tb.insns.Repr
    ensures tb.Valid() && Wf(tb.View()) && tb.insns.Repr == old(tb.insns.Repr)
    ensures tb.View() == AfterPass(g, old(tb.View()), 0, map[], false)
  {
    hide *;
    ghost var goal := AfterPass(g, tb.View(), 0, map[], false);
    var iter := first;
    var cur: nat := 0;
    var cs := new ConstRegSet();
    while true
      invariant tb.Valid() && Wf(tb.View()) && tb.insns.Repr == old(tb.insns.Repr)
      invariant cs.Valid() && fresh(cs) && fresh(cs.regs) && fresh(cs.isConst)
      invariant Holds(tb, At(iter, cur)) && cur <= |tb.View().code|
      invariant || (Over(tb.View(), cur) && tb.View() == goal)
                || (cs.Map() == map[] && AfterPass(g, tb.View(), cur, map[], false) == goal)
      decreases |tb.View().code| - cur
    {
      IsOver(g, tb.View(), cur, map[], false);
      AtEnd(tb, iter, cur);
      if iter == tb.insns.tail {
        break;
      }
      var i := InsnOf(tb, iter, cur);
      if StopsPass(i.opc) {
        break;
      }
      iter, cur := OuterRound(g, tb, iter, cur, cs, i);
    }
  }

  /** One round of the loop in visit. */
  method OuterRound(g: Shape, tb: TB, iter: ListNode<Insn>, cur: nat, cs: ConstRegSet, i: Insn)
    returns (iter': ListNode<Insn>, cur': nat)
    requires tb.Valid() && Wf(tb.View()) && Holds(tb, At(iter, cur)) && cur < |tb.View().code|
    requires cs.Valid() && cs.Map() == map[] && i == tb.View().code[cur] && !StopsPass(i.opc)
    modifies tb`rels, tb`relsValid, tb`jmpTarget, tb`bInsns, tb`bneInsns, tb`otherBInsns, tb.insns, tb.insns.Repr
    modifies cs, cs.regs, cs.isConst
    ensures tb.Valid() && Wf(tb.View()) && tb.insns.Repr == old(tb.insns.Repr)
    ensures Holds(tb, At(iter', cur')) && cs.Valid() && cur' <= |tb.View().code|
    ensures |tb.View().code| - cur' < |old(tb.View()).code| - cur
    ensures var goal := AfterPass(g, old(tb.View()), cur, map[], false);
            || (Over(tb.View(), cur') && tb.View() == goal)
            || (cs.Map() == map[] && AfterPass(g, tb.View(), cur', map[], false) == goal)
  {
    hide *;
    OuterTakes(g, Slots(tb.View())[cur..]);
    var pat := IsPattern(g, tb, iter, cur);
    if pat {
      StepTake(g, tb.View(), cur, map[], false);
      var c := GetRes(g, tb, iter, cur);
      cs.Set(i.dst, c);
      iter' := Advance(g, tb, iter, cur);
      cur' := cur + g.Len();
      iter', cur' := InnerLoop(g, tb, iter', cur', cs);
    } else {
      StepSkip(g, tb.View(), cur, map[], false);
      OuterKilled(i.dst);
      iter' := Next(tb, iter, cur);
      cur' := cur + 1;
    }
  }

  lemma OuterTakes(g: Shape, u: seq<Slot>)
    ensures Takes(g, u, false) <==> GroupAt(g, u)
  {
  }

  lemma OuterKilled(r: Reg)
    ensures Killed(map[], r, false) == map[]
  {
  }
}
