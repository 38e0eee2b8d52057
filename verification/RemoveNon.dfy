/** lib/Vistor/RemoveNonVistor.cpp: deletes the canonical nop, `andi r0, r0, 0`, wherever
    no live relocation covers it. */
module RemoveNon {
  import opened Isa
  import opened Blocks
  import opened LinkLists
  import opened Tbs
  import opened Edits
  import opened SlotViews
  import opened Peephole

  predicate IsNop(i: Insn) { i.opc == ANDI && i.dst == 0 && i.src == 0 && i.ui == 0 }

  predicate Removable(sl: Slot) { IsNop(sl.insn) && !sl.pinned }

  function DropNops(s: seq<Slot>): seq<Slot> {
    if s == [] then []
    else if Removable(s[0]) then DropNops(s[1..])
    else [s[0]] + DropNops(s[1..])
  }

  /** Removing nops preserves the state in which the first B or BNE is reached; the code from
      there on only loses its own nops. */
  lemma {:induction false} DropNopsMeaning<M>(m: Machine<M>, s: seq<Slot>, st: State<M>)
    ensures RunPrefix(m, DropNops(s), st).0 == RunPrefix(m, s, st).0
    ensures RunPrefix(m, DropNops(s), st).1 == DropNops(RunPrefix(m, s, st).1)
    decreases |s|
  {
    if s == [] {
    } else if StopsPass(s[0].insn.opc) {
      ConsTail(s[0], DropNops(s[1..]));
    } else if Removable(s[0]) {
      assert ExecSlot(m, s[0], st) == st;
      DropNopsMeaning(m, s[1..], st);
    } else {
      ConsTail(s[0], DropNops(s[1..]));
      DropNopsMeaning(m, s[1..], ExecSlot(m, s[0], st));
    }
  }

  /** One run removes every nop it may remove. */
  lemma {:induction false} DropNopsIdempotent(s: seq<Slot>)
    ensures DropNops(DropNops(s)) == DropNops(s)
    ensures forall q :: 0 <= q < |DropNops(s)| ==> !Removable(DropNops(s)[q])
  {
    if s != [] {
      DropNopsIdempotent(s[1..]);
      ConsTail(s[0], DropNops(s[1..]));
    }
  }

  /** What is removed is `andi r0, r0, 0` under no live relocation, and nothing else. */
  lemma DropsExactly(x: Slot)
    ensures DropNops([x]) ==
              if x.insn.opc == ANDI && x.insn.dst == 0 && x.insn.src == 0 && x.insn.ui == 0 && !x.pinned then []
              else [x]
  {
    assert [x][1..] == [];
  }

  // ----- on a block -----

  /** visit from position i on. */
  ghost function AfterNops(b: Block, i: nat): (r: Block)
    requires Shaped(b) && i <= |b.code|
    ensures Shaped(r)
    decreases |b.code| - i
  {
    if i == |b.code| then b
    else if IsNop(b.code[i]) && !Covered(b, i) then AfterNops(DropInsn(b, i, i), i)
    else AfterNops(b, i + 1)
  }

  lemma NopGone(b: Block, i: nat)
    requires Wf(b) && i < |b.code| && IsNop(b.code[i]) && !Covered(b, i)
    ensures DropInsn(b, i, i) == Cut(b, i, 1) && Wf(Cut(b, i, 1)) && Leads(b, [Del(i)], Cut(b, i, 1))
    ensures Slots(Cut(b, i, 1)) == Slots(b)[..i] + Slots(b)[i + 1..]
  {
    hide DropInsn, Cut, Leads, Covered;
    InFrontNone(b, 0);
    EraseReady(b, [], b, i, i, i, 1, 0);
    assert [] + [Del(i)] == [Del(i)];
  }

  /** Where a history that begins with the deletion of i takes the positions behind. */
  lemma TrackBehind(i: nat, es: seq<Edit>, k: nat)
    ensures k < i ==> Track([Del(i)] + es, k) == Track(es, k) && (Untouched([Del(i)] + es, k) <==> Untouched(es, k))
    ensures k > i ==>
              Track([Del(i)] + es, k) == Track(es, k - 1) && (Untouched([Del(i)] + es, k) <==> Untouched(es, k - 1))
  {
    TrackAppend([Del(i)], es, k);
    assert [Del(i)][..0] == [];
  }

  /** The history leaves what is in front of i alone and moves every other instruction that stays up by
      the number of removed nops between i and it. */
  ghost predicate Counts(s: seq<Slot>, i: nat, es: seq<Edit>) {
    && i <= |s| && (forall k :: 0 <= k < i ==> Untouched(es, k) && Track(es, k) == k)
    && forall k :: i <= k < |s| && !Removable(s[k]) ==> Untouched(es, k) && Track(es, k) == i + |DropNops(s[i..k])|
  }

  lemma CountsDrop(s: seq<Slot>, i: nat, fs: seq<Edit>)
    requires i < |s| && Removable(s[i]) && Counts(s[..i] + s[i + 1..], i, fs)
    ensures Counts(s, i, [Del(i)] + fs)
  {
    var t := s[..i] + s[i + 1..];
    forall k | 0 <= k < i
      ensures Untouched([Del(i)] + fs, k) && Track([Del(i)] + fs, k) == k
    {
      TrackBehind(i, fs, k);
    }
    forall k | i <= k < |s| && !Removable(s[k])
      ensures Untouched([Del(i)] + fs, k) && Track([Del(i)] + fs, k) == i + |DropNops(s[i..k])|
    {
      assert t[k - 1] == s[k];
      TrackBehind(i, fs, k);
      assert t[i..k - 1] == s[i + 1..k] && s[i..k][1..] == s[i + 1..k];
    }
  }

  lemma CountsKeep(s: seq<Slot>, i: nat, es: seq<Edit>)
    requires i < |s| && !Removable(s[i]) && Counts(s, i + 1, es)
    ensures Counts(s, i, es)
  {
    forall k | i <= k < |s| && !Removable(s[k])
      ensures Track(es, k) == i + |DropNops(s[i..k])|
    {
      assert k > i ==> s[i..k][1..] == s[i + 1..k];
    }
  }

  /** The visitor removes the nops by harmless edits. */
  lemma {:induction false} NopsFrom(b: Block, i: nat) returns (es: seq<Edit>)
    requires Wf(b) && i <= |b.code|
    ensures Shaped(b) && Counts(Slots(b), i, es)
    ensures var c := AfterNops(b, i);
            Wf(c) && Leads(b, es, c) && Slots(c) == Slots(b)[..i] + DropNops(Slots(b)[i..])
    decreases |b.code| - i
  {
    hide RelsFit, RelsApart, ExitsAligned, BranchExact, ExitOk, Covered, Leads, DropInsn, Cut, Counts, AfterNops;
    var s := Slots(b);
    NopStep(b, i);
    if i == |b.code| {
      es := [];
      NothingLeft(b);
    } else if Removable(s[i]) {
      NopGone(b, i);
      var b1 := Cut(b, i, 1);
      var fs := NopsFrom(b1, i);
      es := [Del(i)] + fs;
      LeadsAppend(b, [Del(i)], b1, fs, AfterNops(b1, i));
      CountsDrop(s, i, fs);
      DropStep(s, i);
    } else {
      es := NopsFrom(b, i + 1);
      CountsKeep(s, i, es);
      KeepStep(s, i);
    }
  }

  lemma NothingLeft(b: Block)
    requires Shaped(b)
    ensures Leads(b, [], b) && Counts(Slots(b), |b.code|, [])
    ensures Slots(b)[..|b.code|] + DropNops(Slots(b)[|b.code|..]) == Slots(b)
  {
  }

  lemma KeepStep(s: seq<Slot>, i: nat)
    requires i < |s| && !Removable(s[i])
    ensures s[..i + 1] + DropNops(s[i + 1..]) == s[..i] + DropNops(s[i..])
  {
    assert s[i..][1..] == s[i + 1..] && s[..i + 1] == s[..i] + [s[i]];
  }

  lemma DropStep(s: seq<Slot>, i: nat)
    requires i < |s| && Removable(s[i])
    ensures var t := s[..i] + s[i + 1..]; t[..i] + DropNops(t[i..]) == s[..i] + DropNops(s[i..])
  {
    var t := s[..i] + s[i + 1..];
    assert s[i..][1..] == s[i + 1..] == t[i..] && t[..i] == s[..i];
  }

  /** From one instruction that stays to another one the distance shrinks by the nops in between. */
  lemma NopsRight(b: Block) returns (es: seq<Edit>)
    requires Wf(b)
    ensures Shaped(b) && Wf(AfterNops(b, 0)) && Leads(b, es, AfterNops(b, 0))
    ensures Slots(AfterNops(b, 0)) == DropNops(Slots(b))
    ensures forall k :: 0 <= k < |b.code| && !Removable(Slots(b)[k]) ==> Untouched(es, k)
    ensures forall x, r :: 0 <= x <= r < |b.code| && !Removable(Slots(b)[x]) && !Removable(Slots(b)[r]) ==>
              Track(es, r) - Track(es, x) == |DropNops(Slots(b)[x..r])|
  {
    hide Wf, Leads, AfterNops, Removable;
    es := NopsFrom(b, 0);
    var s := Slots(b);
    assert s[0..] == s && s[..0] + DropNops(s) == DropNops(s);
    forall x, r | 0 <= x <= r < |s| && !Removable(s[x]) && !Removable(s[r])
      ensures Track(es, r) - Track(es, x) == |DropNops(s[x..r])|
    {
      DropAppend(s[0..x], s[x..r]);
      assert s[0..x] + s[x..r] == s[0..r];
    }
  }

  lemma {:induction false} DropAppend(x: seq<Slot>, y: seq<Slot>)
    ensures DropNops(x + y) == DropNops(x) + DropNops(y)
  {
    if x == [] {
      assert x + y == y;
    } else {
      assert (x + y)[1..] == x[1..] + y;
      DropAppend(x[1..], y);
    }
  }

  /** Nothing is dropped exactly if nothing could be. */
  lemma {:induction false} DropAll(s: seq<Slot>)
    ensures |DropNops(s)| <= |s|
    ensures |DropNops(s)| == |s| <==> forall k :: 0 <= k < |s| ==> !Removable(s[k])
  {
    if s != [] {
      DropAll(s[1..]);
      assert forall k :: 0 < k < |s| ==> s[k] == s[1..][k - 1];
    }
  }

  // ----- on the heap -----

  /** visit, on any block. */
  method Visit(tb: TB)
    requires tb.Valid() && Aligned(tb.View())
    modifies tb`rels, tb`jmpTarget, tb`bInsns, tb`bneInsns, tb`otherBInsns, tb.insns, tb.insns.Repr
    ensures tb.Valid() && Aligned(tb.View()) && tb.insns.Repr == old(tb.insns.Repr)
    ensures tb.View() == AfterNops(old(tb.View()), 0)
  {
    var iter := tb.insns.Begin();
    VisitFrom(tb, iter);
  }

  method VisitFrom(tb: TB, first: ListNode<Insn>)
    requires tb.Valid() && Aligned(tb.View()) && Holds(tb, At(first, 0))
    modifies tb`rels, tb`jmpTarget, tb`bInsns, tb`bneInsns, tb`otherBInsns, tb.insns, tb.insns.Repr
    ensures tb.Valid() && Aligned(tb.View()) && tb.insns.Repr == old(tb.insns.Repr)
    ensures tb.View() == AfterNops(old(tb.View()), 0)
  {
    hide *;
    var i: nat := 0;
    var iter := first;
    while true
      invariant tb.Valid() && Aligned(tb.View()) && tb.insns.Repr == old(tb.insns.Repr)
      invariant i <= |tb.View().code| && Holds(tb, At(iter, i))
      invariant AfterNops(tb.View(), i) == AfterNops(old(tb.View()), 0)
      decreases |tb.View().code| - i
    {
      AtEnd(tb, iter, i);
      NopStep(tb.View(), i);
      if iter == tb.insns.tail {
        break;
      }
      var insn := InsnOf(tb, iter, i);
      if IsNop(insn) {
        var next := TryErase(tb, iter, i);
        if iter == next {
          iter := Next(tb, iter, i);
          i := i + 1;
        } else {
          iter := next;
        }
      } else {
        iter := Next(tb, iter, i);
        i := i + 1;
      }
    }
  }

  lemma NopStep(b: Block, i: nat)
    requires Shaped(b) && i <= |b.code|
    ensures i == |b.code| ==> AfterNops(b, i) == b
    ensures i < |b.code| ==>
              AfterNops(b, i) == if IsNop(b.code[i]) && !Covered(b, i) then AfterNops(DropInsn(b, i, i), i)
                                 else AfterNops(b, i + 1)
  {
  }

  /** delete_ith_insn with the true index: refused exactly under a live relocation, in
      which case the same node comes back. */
  method TryErase(tb: TB, node: ListNode<Insn>, i: nat) returns (next: ListNode<Insn>)
    requires tb.Valid() && Aligned(tb.View()) && Holds(tb, At(node, i)) && i < |tb.View().code|
    modifies tb`rels, tb`jmpTarget, tb`bInsns, tb`bneInsns, tb`otherBInsns, tb.insns, tb.insns.Repr
    ensures tb.Valid() && Aligned(tb.View()) && tb.insns.Repr == old(tb.insns.Repr) && Holds(tb, At(next, i))
    ensures (next == node) == Covered(old(tb.View()), i)
    ensures next == node ==> tb.View() == old(tb.View())
    ensures next != node ==>
              tb.View() == DropInsn(old(tb.View()), i, i) && |tb.View().code| == |old(tb.View()).code| - 1
  {
    hide Aligned, Covered, DropInsn;
    DropAligned(tb.View(), i, i);
    DropSize(tb.View(), i);
    assert tb.insns.chain[i + 2].prev == tb.insns.chain[i + 1];
    Elsewhere(tb.insns.chain, i + 1);
    next := tb.DeleteIthInsn(node, i, i);
  }

  lemma DropSize(b: Block, i: nat)
    requires Shaped(b) && i < |b.code|
    ensures |DropInsn(b, i, i).code| == |b.code| - 1
  {
  }
}
