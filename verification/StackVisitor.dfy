/** The push and pop visitors on the heap: `visit` and the chunked recursion `opt_sequence_of_st_addi` /
    `opt_sequence_of_ld_addi`, with the running index they keep. */
module StackVisitors {
  import opened Isa
  import opened Blocks
  import opened LinkLists
  import opened Tbs
  import opened SlotViews
  import opened Peephole
  import opened StackRuns
  import opened StackPasses

  // ----- one run -----

  method SetOffset(tb: TB, node: ListNode<Insn>, si: int, ghost p: nat)
    requires tb.Valid() && Holds(tb, At(node, p)) && p < |tb.View().code|
    modifies tb.insns.Repr
    ensures tb.Valid() && tb.View() == SetSi(old(tb.View()), p, si)
    ensures Aligned(old(tb.View())) ==> Aligned(tb.View())
    ensures forall z: At :: old(allocated(z)) && old(Holds(tb, z)) ==> Holds(tb, z)
  {
    assert tb.insns.Contents()[p] == node.data.value;
    tb.SetInsn(node, node.data.value.(si := si), p);
  }

  /** A round of the chunk loop that is not the last; z is the node behind the `left` pairs still to do. */
  method Round(k: Kind, tb: TB, node: ListNode<Insn>, idx: nat, j: nat, ghost p: nat, ghost left: nat,
               ghost z: ListNode<Insn>)
    returns (node': ListNode<Insn>, idx': nat)
    requires tb.Valid() && Aligned(tb.View()) && Holds(tb, At(node, p)) && Holds(tb, At(z, p + 2 * left))
    requires left >= 1 && p + 2 * left <= |tb.View().code|
    modifies tb`rels, tb`jmpTarget, tb`bInsns, tb`bneInsns, tb`otherBInsns, tb.insns, tb.insns.Repr
    ensures tb.Valid() && Aligned(tb.View()) && tb.insns.Repr == old(tb.insns.Repr)
    ensures var h := AfterRound(k, old(tb.View()), p, idx, j);
            tb.View() == h.b && idx' == h.idx && Holds(tb, At(node', h.pos)) && Holds(tb, At(z, h.pos + 2 * (left - 1)))
  {
    hide Aligned, Covered, DropInsn, Holds, SetSi, Slots, Erased, AfterRound;
    RoundIs(k, tb.View(), p, idx, j);
    SetOffset(tb, node, k.Offset(j), p);
    var addiInsn := Next(tb, node, p);
    node' := Next(tb, addiInsn, p + 1);
    idx' := idx + 1;
    Delete(tb, addiInsn, idx', p + 1, node', At(z, p + 2 * left));
  }

  lemma RoundIs(k: Kind, b: Block, p: nat, idx: nat, j: nat)
    requires Shaped(b) && p + 2 <= |b.code|
    ensures var b1 := SetSi(b, p, k.Offset(j));
            && Shaped(b1) && |b1.code| == |b.code|
            && AfterRound(k, b, p, idx, j)
                 == Here(Erased(b1, p + 1, idx + 1), p + 2 - (if Covered(b1, idx + 1) then 0 else 1), idx + 1)
  {
    hide Covered, DropInsn;
  }

  lemma SetSiSize(b: Block, p: nat, si: int)
    requires p < |b.code|
    ensures |SetSi(b, p, si).code| == |b.code|
  {
  }

  /** The last round. */
  method LastRound(k: Kind, tb: TB, node: ListNode<Insn>, c: nat, ghost idx: nat, ghost p: nat, ghost z: At)
    returns (node': ListNode<Insn>)
    requires tb.Valid() && Aligned(tb.View()) && Holds(tb, At(node, p)) && Holds(tb, z) && p + 2 <= |tb.View().code|
    requires c >= 1
    modifies tb.insns.Repr
    ensures tb.Valid() && Aligned(tb.View()) && tb.View() == AfterLast(k, old(tb.View()), p, idx, c).b
    ensures Holds(tb, At(node', p + 2)) && Holds(tb, z)
  {
    hide Aligned, Holds, SetSi, Slots, TB.Valid, TB.View;
    SetSiSize(tb.View(), p, k.Offset(c - 1));
    SetOffset(tb, node, k.Offset(c - 1), p);
    var addiInsn := Next(tb, node, p);
    node' := Next(tb, addiInsn, p + 1);
    SetOffset(tb, addiInsn, k.Stride(c), p + 1);
  }

  /** The `while(count > 0)` loop over one chunk of c pairs. */
  method DoChunk(k: Kind, tb: TB, insn: ListNode<Insn>, c: nat, idx: nat, ghost p: nat, ghost left: nat,
                 ghost z: ListNode<Insn>)
    returns (next: ListNode<Insn>, idx': nat, ghost p': nat)
    requires tb.Valid() && Aligned(tb.View()) && Holds(tb, At(insn, p)) && Holds(tb, At(z, p + 2 * left))
    requires 1 <= c <= left && p + 2 * left <= |tb.View().code|
    modifies tb`rels, tb`jmpTarget, tb`bInsns, tb`bneInsns, tb`otherBInsns, tb.insns, tb.insns.Repr
    ensures tb.Valid() && Aligned(tb.View()) && tb.insns.Repr == old(tb.insns.Repr)
    ensures Here(tb.View(), p', idx') == AfterChunk(k, old(tb.View()), p, idx, 0, c)
    ensures Holds(tb, At(next, p')) && Holds(tb, At(z, p' + 2 * (left - c)))
  {
    hide Aligned, Holds, AfterRound, AfterLast, TB.Valid, TB.View;
    var i: nat := 0;
    next, idx', p' := insn, idx, p;
    while i + 1 < c
      invariant i < c && tb.Valid() && Aligned(tb.View()) && tb.insns.Repr == old(tb.insns.Repr)
      invariant p' + 2 * (left - i) <= |tb.View().code|
      invariant AfterChunk(k, tb.View(), p', idx', i, c) == AfterChunk(k, old(tb.View()), p, idx, 0, c)
      invariant Holds(tb, At(next, p')) && Holds(tb, At(z, p' + 2 * (left - i)))
    {
      ghost var h := AfterRound(k, tb.View(), p', idx', i);
      next, idx' := Round(k, tb, next, idx', i, p', left - i, z);
      i, p' := i + 1, h.pos;
    }
    ghost var h := AfterLast(k, tb.View(), p', idx', c);
    next := LastRound(k, tb, next, c, idx', p', At(z, p' + 2 * (left - i)));
    p' := p' + 2;
  }

  /** opt_sequence_of_st_addi / opt_sequence_of_ld_addi: a run of `total` pairs, chunk by chunk. */
  method OptSequence(k: Kind, tb: TB, insn: ListNode<Insn>, total: nat, idx: nat, ghost p: nat, ghost z: ListNode<Insn>)
    returns (ghost p': nat)
    requires tb.Valid() && Aligned(tb.View()) && Holds(tb, At(insn, p)) && Holds(tb, At(z, p + 2 * total))
    requires 1 <= total && p + 2 * total <= |tb.View().code|
    modifies tb`rels, tb`jmpTarget, tb`bInsns, tb`bneInsns, tb`otherBInsns, tb.insns, tb.insns.Repr
    ensures tb.Valid() && Aligned(tb.View()) && tb.insns.Repr == old(tb.insns.Repr)
    ensures var h := AfterSequence(k, old(tb.View()), p, idx, total);
            tb.View() == h.b && p' == h.pos && Holds(tb, At(z, p'))
    decreases total
  {
    hide Aligned, Holds, AfterChunk;
    var c := Min(total, k.Max());
    ghost var h := AfterChunk(k, tb.View(), p, idx, 0, c);
    var next, idx';
    next, idx', p' := DoChunk(k, tb, insn, c, idx, p, total, z);
    if total > k.Max() {
      p' := OptSequence(k, tb, next, total - k.Max(), idx', p', z);
    }
  }

  // ----- visit -----

  /** is_st_addi_pattern / is_ld_addi_pattern */
  method IsPattern(k: Kind, tb: TB, node: ListNode<Insn>, ghost p: nat) returns (r: bool)
    requires tb.Valid() && Holds(tb, At(node, p)) && p <= |Slots(tb.View())|
    ensures r == PairAt(k, Slots(tb.View())[p..])
  {
    ghost var s := Slots(tb.View());
    ghost var ch := tb.insns.chain;
    AtEnd(tb, node, p);
    var cur := node.data;
    if cur.Some? && cur.value.opc == k.Access() && cur.value.si == k.PairOffset() {
      assert ch[p + 1].next == ch[p + 2] && tb.insns.Contents()[p] == cur.value;
      var next := node.next;
      AtEnd(tb, next, p + 1);
      var cur2 := next.data;
      if cur2.Some? {
        assert tb.insns.Contents()[p + 1] == cur2.value;
        return && cur2.value.opc == ADDI_D && cur2.value.si == k.Stride(1)
               && cur2.value.dst == cur.value.src && cur2.value.src == cur.value.src;
      }
    }
    if cur.Some? { assert tb.insns.Contents()[p] == cur.value; }
    return false;
  }

  /** The condition of the inner loop of visit. */
  method SameRun(k: Kind, tb: TB, iter: ListNode<Insn>, base: Reg, ghost q: nat) returns (r: bool)
    requires tb.Valid() && Holds(tb, At(iter, q)) && q <= |Slots(tb.View())|
    ensures r == Continues(k, Slots(tb.View()), q, base)
  {
    AtEnd(tb, iter, q);
    if iter == tb.insns.tail {
      return false;
    }
    r := IsPattern(k, tb, iter, q);
    if r {
      var i := InsnOf(tb, iter, q);
      r := i.src == base;
    }
  }

  lemma RunLengthStep(k: Kind, s: seq<Slot>, q: nat, base: Reg)
    requires q <= |s|
    ensures Continues(k, s, q, base) ==>
              q + 2 <= |s| && RunLength(k, s[q..], base) == 1 + RunLength(k, s[q + 2..], base)
    ensures !Continues(k, s, q, base) ==> RunLength(k, s[q..], base) == 0
  {
    if Continues(k, s, q, base) {
      assert s[q..][2..] == s[q + 2..];
    }
  }

  /** Counts the pairs of the run that starts at node. */
  method CountRun(k: Kind, tb: TB, node: ListNode<Insn>, base: Reg, ghost p: nat)
    returns (count: nat, iter: ListNode<Insn>)
    requires tb.Valid() && Holds(tb, At(node, p)) && Continues(k, Slots(tb.View()), p, base)
    ensures p < |Slots(tb.View())| && count == RunLength(k, Slots(tb.View())[p..], base) && 1 <= count
    ensures p + 2 * count <= |Slots(tb.View())| && Holds(tb, At(iter, p + 2 * count))
  {
    hide *;
    ghost var s := Slots(tb.View());
    ghost var q := p + 2;
    ContinuesIn(k, s, p, base);
    RunLengthStep(k, s, p, base);
    count := 1;
    iter := Next(tb, node, p);
    iter := Next(tb, iter, p + 1);
    while true
      invariant q == p + 2 * count && q <= |s| && Holds(tb, At(iter, q)) && 1 <= count
      invariant RunLength(k, s[p..], base) == count + RunLength(k, s[q..], base)
      decreases |s| - q
    {
      RunLengthStep(k, s, q, base);
      var more := SameRun(k, tb, iter, base, q);
      if !more {
        break;
      }
      iter := Next(tb, iter, q);
      iter := Next(tb, iter, q + 1);
      count, q := count + 1, q + 2;
    }
  }

  lemma ContinuesIn(k: Kind, s: seq<Slot>, q: nat, base: Reg)
    requires Continues(k, s, q, base)
    ensures q + 2 <= |s| && s[q].insn.src == base
  {
  }

  /** visit, on any block: the index cur moves on by the length of a run plus one, wherever the run's
      end really is. */
  method Visit(k: Kind, tb: TB)
    requires tb.Valid() && Aligned(tb.View())
    modifies tb`rels, tb`jmpTarget, tb`bInsns, tb`bneInsns, tb`otherBInsns, tb.insns, tb.insns.Repr
    ensures tb.Valid() && Aligned(tb.View()) && tb.insns.Repr == old(tb.insns.Repr)
    ensures tb.View() == AfterVisit(k, old(tb.View()), 0, 0)
  {
    var iter := tb.insns.Begin();
    VisitFrom(k, tb, iter);
  }

  method VisitFrom(k: Kind, tb: TB, first: ListNode<Insn>)
    requires tb.Valid() && Aligned(tb.View()) && Holds(tb, At(first, 0))
    modifies tb`rels, tb`jmpTarget, tb`bInsns, tb`bneInsns, tb`otherBInsns, tb.insns, tb.insns.Repr
    ensures tb.Valid() && Aligned(tb.View()) && tb.insns.Repr == old(tb.insns.Repr)
    ensures tb.View() == AfterVisit(k, old(tb.View()), 0, 0)
  {
    hide *;
    var iter, cur: nat := first, 0;
    ghost var p: nat := 0;
    while true
      invariant tb.Valid() && Aligned(tb.View()) && tb.insns.Repr == old(tb.insns.Repr)
      invariant p <= |tb.View().code| && AfterVisit(k, tb.View(), p, cur) == AfterVisit(k, old(tb.View()), 0, 0)
      invariant Holds(tb, At(iter, p))
      decreases |tb.View().code| - p
    {
      AtEnd(tb, iter, p);
      VisitEnd(k, tb.View(), p, cur);
      if iter == tb.insns.tail {
        break;
      }
      var i := InsnOf(tb, iter, p);
      if StopsPass(i.opc) {
        break;
      }
      var pat := IsPattern(k, tb, iter, p);
      VisitStep(k, tb.View(), p, cur);
      if pat {
        iter, cur, p := VisitRun(k, tb, iter, i.src, cur, p);
      } else {
        iter := Next(tb, iter, p);
        cur, p := cur + 1, p + 1;
      }
    }
  }

  /** One round of it at a run. */
  method VisitRun(k: Kind, tb: TB, save: ListNode<Insn>, reg: Reg, cur: nat, ghost p: nat)
    returns (iter: ListNode<Insn>, cur': nat, ghost p': nat)
    requires tb.Valid() && Aligned(tb.View()) && Holds(tb, At(save, p)) && p < |tb.View().code|
    requires PairAt(k, Slots(tb.View())[p..]) && !StopsPass(tb.View().code[p].opc) && reg == tb.View().code[p].src
    modifies tb`rels, tb`jmpTarget, tb`bInsns, tb`bneInsns, tb`otherBInsns, tb.insns, tb.insns.Repr
    ensures tb.Valid() && Aligned(tb.View()) && tb.insns.Repr == old(tb.insns.Repr)
    ensures p' <= |tb.View().code| && |tb.View().code| - p' < |old(tb.View()).code| - p && Holds(tb, At(iter, p'))
    ensures AfterVisit(k, tb.View(), p', cur') == AfterVisit(k, old(tb.View()), p, cur)
  {
    hide *;
    VisitStep(k, tb.View(), p, cur);
    var count;
    count, iter := CountRun(k, tb, save, reg, p);
    p' := p + 2 * count;
    if count != 1 {
      p' := OptSequence(k, tb, save, count, cur, p, iter);
    }
    cur' := cur + (count + 1);
  }

}
