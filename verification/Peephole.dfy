/** What the peephole passes share: the editing steps they take on a block, and what those do to the
    history `es` of edits made since the block was b0. */
module Peephole {
  import opened Isa
  import opened Blocks
  import opened LinkLists
  import opened Tbs
  import opened Edits
  import opened SlotViews

  /** The n slots from lo on hold plain instructions under no live relocation. */
  ghost predicate Editable(s: seq<Slot>, lo: nat, n: nat) {
    lo + n <= |s| && forall q :: lo <= q < lo + n ==> ClassOf(s[q].insn.opc) == NotBranch && !s[q].pinned
  }

  lemma EditableAt(s: seq<Slot>, lo: nat, n: nat, q: nat)
    requires Editable(s, lo, n) && lo <= q < lo + n
    ensures q < |s| && Editable(s, q, 1)
  {
  }

  /** A node and its list position, for a pointer that has to survive edits in front of it. */
  datatype At = At(node: ListNode<Insn>, pos: nat)

  ghost predicate Holds(tb: TB, z: At)
    reads tb, tb.insns, tb.insns.Repr
  {
    z.pos + 1 < |tb.insns.chain| && tb.insns.chain[z.pos + 1] == z.node
  }

  method Next(tb: TB, node: ListNode<Insn>, ghost p: nat) returns (next: ListNode<Insn>)
    requires tb.Valid() && p < |Slots(tb.View())| && Holds(tb, At(node, p))
    ensures Holds(tb, At(next, p + 1))
  {
    assert tb.insns.chain[p + 1].next == tb.insns.chain[p + 2];
    next := node.next;
  }

  method InsnOf(tb: TB, node: ListNode<Insn>, ghost p: nat) returns (i: Insn)
    requires tb.Valid() && p < |Slots(tb.View())| && Holds(tb, At(node, p))
    ensures i == Slots(tb.View())[p].insn
  {
    assert tb.insns.Contents()[p] == tb.insns.chain[p + 1].data.value;
    i := node.data.value;
  }

  /** A node equals the tail sentinel exactly behind the last instruction. */
  lemma AtEnd(tb: TB, node: ListNode<Insn>, p: nat)
    requires tb.Valid() && Holds(tb, At(node, p))
    ensures p <= |Slots(tb.View())| && (node == tb.insns.tail <==> p == |Slots(tb.View())|)
    ensures node.data == None <==> p == |Slots(tb.View())|
  {
    var ch := tb.insns.chain;
    assert ch[p + 1] == ch[tb.insns.size + 1] <==> p == tb.insns.size;
    assert p < tb.insns.size ==> ch[p + 1].data.Some?;
  }

  lemma EraseReady(b0: Block, es: seq<Edit>, b: Block, i: nat, pos: nat, lo: nat, n: nat, last: nat)
    requires Wf(b) && LeadsInFront(b0, es, b, last) && Editable(Slots(b), lo, n)
    requires lo <= i <= pos < lo + n && pos + last < |b.code|
    ensures !Covered(b, i) && DropInsn(b, pos, i) == Cut(b, pos, 1)
    ensures Wf(Cut(b, pos, 1)) && LeadsInFront(b0, es + [Del(pos)], Cut(b, pos, 1), last)
    ensures Slots(Cut(b, pos, 1)) == Slots(b)[..pos] + Slots(b)[pos + 1..]
  {
    hide DropInsn, Cut, LeadsInFront, Free;
    FreeSlots(b, lo, n);
    FreeOne(b, pos);
    FreeUse(b, pos);
    DropNear(b, lo, n, pos, i);
    ApplyWf(b, Del(pos));
    SlotsCut(b, pos, 1);
    InFrontStep(b0, es, b, Del(pos), last);
  }

  /** A B or BNE stands `last` instructions from the end, and a pass stops there at the latest. */
  predicate StopAt(s: seq<Slot>, last: nat) {
    last <= |s| && (last > 0 ==> StopsPass(s[|s| - last].insn.opc))
  }

  lemma NotStopped(s: seq<Slot>, p: nat, last: nat)
    requires StopAt(s, last) && p < |s| && p + last <= |s| && !StopsPass(s[p].insn.opc)
    ensures p + 1 + last <= |s|
  {
  }

  lemma StopBehind(s: seq<Slot>, last: nat, p: nat, n: nat)
    requires StopAt(s, last) && p + last <= |s| && p + n <= |s|
    requires forall q :: p <= q < p + n ==> !StopsPass(s[q].insn.opc)
    ensures p + n + last <= |s|
  {
    assert p + n + last > |s| ==> last > 0 && p <= |s| - last < p + n;
  }

  lemma StopKept(s: seq<Slot>, last: nat, p: nat, n: nat, a: seq<Slot>)
    requires StopAt(s, last) && p + n + last <= |s|
    ensures StopAt(s[..p] + a + s[p + n..], last)
  {
    var t := s[..p] + a + s[p + n..];
    assert last > 0 ==> t[|t| - last] == s[|s| - last];
  }

  lemma FreeUse(b: Block, pos: nat)
    requires Shaped(b) && Free(b, pos, 1)
    ensures Ok(b, Del(pos)) && forall j :: 0 <= j < |b.rels| && b.live[j] ==> !Overlaps(b.rels[j], pos, 1)
  {
  }

  /** What delete_ith_insn leaves: nothing happens under a live relocation. */
  ghost function Erased(b: Block, pos: nat, i: nat): (r: Block)
    requires Shaped(b) && pos < |b.code|
    ensures Shaped(r)
  {
    if Covered(b, i) then b else DropInsn(b, pos, i)
  }

  /** delete_ith_insn with any index, and where the next node y and a later one, z, are afterwards. */
  method Delete(tb: TB, node: ListNode<Insn>, i: nat, ghost pos: nat, ghost y: ListNode<Insn>, ghost z: At)
    requires tb.Valid() && Aligned(tb.View()) && pos < |tb.View().code| && Holds(tb, At(node, pos))
    requires Holds(tb, At(y, pos + 1)) && Holds(tb, z) && pos < z.pos
    modifies tb`rels, tb`jmpTarget, tb`bInsns, tb`bneInsns, tb`otherBInsns, tb.insns, tb.insns.Repr
    ensures tb.Valid() && Aligned(tb.View()) && tb.insns.Repr == old(tb.insns.Repr)
    ensures tb.View() == Erased(old(tb.View()), pos, i)
    ensures var gone := if Covered(old(tb.View()), i) then 0 else 1;
            Holds(tb, At(y, pos + 1 - gone)) && Holds(tb, At(z.node, z.pos - gone))
  {
    hide Aligned, Covered, DropInsn;
    DropAligned(tb.View(), pos, i);
    var _ := tb.DeleteIthInsn(node, i, pos);
  }
}
