/** The block merge of lib/Vistor/TU_Vistor.cpp: the code of a block without exits replaces the
    tail of its predecessor, from the exit branch on. */
module Merge {
  import opened Isa
  import opened Blocks
  import opened LinkLists
  import opened Tbs
  import opened SlotViews

  // ----- the successor predicates -----

  /** no_successor, only_one_successor and get_the_onlyone_successor */
  predicate NoSuccessor(tb: TB)
    requires |tb.jmpReset| == 2
    reads tb
  {
    tb.jmpReset[0] == INVALID && tb.jmpReset[1] == INVALID
  }

  predicate OnlyOneSuccessor(tb: TB)
    requires |tb.jmpReset| == 2
    reads tb
  {
    || (tb.jmpReset[0] == INVALID && tb.jmpReset[1] != INVALID && tb.trueBranch != null)
    || (tb.jmpReset[0] != INVALID && tb.jmpReset[1] == INVALID && tb.falseBranch != null)
  }

  function TheOnlyOneSuccessor(tb: TB): TB?
    requires |tb.jmpReset| == 2
    reads tb
  {
    if !OnlyOneSuccessor(tb) then null
    else if tb.falseBranch != null then tb.falseBranch else tb.trueBranch
  }

  // ----- the merge as a function on blocks -----

  function LiveShifted(rels: seq<Rel>, live: seq<bool>, d: nat): seq<Rel>
    requires |rels| == |live|
  {
    if rels == [] then []
    else if live[0] then [rels[0].(tcOffset := rels[0].tcOffset + 4 * d)] + LiveShifted(rels[1..], live[1..], d)
    else LiveShifted(rels[1..], live[1..], d)
  }

  /** dst up to position k, then all of src. */
  function Merged(dst: Block, src: Block, k: nat): (r: Block)
    requires Shaped(dst) && Shaped(src) && k <= |dst.code|
    ensures Shaped(r)
  {
    var c := Cut(dst, k, |dst.code| - k);
    var added := LiveShifted(src.rels, src.live, k);
    var code := dst.code[..k] + src.code;
    Block(code, c.rels + added, c.live + AllTrue(|added|),
          Positions(code, ClassB), Positions(code, ClassBne), Positions(code, ClassOther),
          [INVALID, INVALID], c.target)
  }

  // ----- what a merge keeps -----

  /** The live relocations that lie wholly in front of position k. */
  function LiveBefore(rels: seq<Rel>, live: seq<bool>, k: nat): seq<Rel>
    requires |rels| == |live|
  {
    if rels == [] then []
    else if live[0] && rels[0].tcOffset + 4 * rels[0].slots <= 4 * k
      then [rels[0]] + LiveBefore(rels[1..], live[1..], k)
    else LiveBefore(rels[1..], live[1..], k)
  }

  function LiveRels(b: Block): seq<Rel>
    requires Shaped(b)
  {
    LiveShifted(b.rels, b.live, 0)
  }

  lemma {:induction false} AllLive(rels: seq<Rel>)
    ensures LiveShifted(rels, AllTrue(|rels|), 0) == rels
  {
    if rels != [] {
      AllLive(rels[1..]);
      assert AllTrue(|rels|)[1..] == AllTrue(|rels[1..]|);
    }
  }

  lemma {:induction false} LiveShiftedAppend(r: seq<Rel>, l: seq<bool>, r': seq<Rel>, l': seq<bool>, d: nat)
    requires |r| == |l| && |r'| == |l'|
    ensures LiveShifted(r + r', l + l', d) == LiveShifted(r, l, d) + LiveShifted(r', l', d)
  {
    if r == [] {
      assert r + r' == r' && l + l' == l';
    } else {
      assert (r + r')[1..] == r[1..] + r' && (l + l')[1..] == l[1..] + l';
      LiveShiftedAppend(r[1..], l[1..], r', l', d);
    }
  }

  function Kept(rels: seq<Rel>, live: seq<bool>, p: nat, n: nat): seq<bool>
    requires |rels| == |live|
  {
    seq(|live|, j requires 0 <= j < |live| => live[j] && !Overlaps(rels[j], p, n))
  }

  lemma {:induction false} CutLive(rels: seq<Rel>, live: seq<bool>, k: nat, len: nat)
    requires |rels| == |live| && RelsFit(rels, live, len) && k < len
    ensures LiveShifted(LowerRels(rels, live, k, len - k), Kept(rels, live, k, len - k), 0) == LiveBefore(rels, live, k)
  {
    if rels != [] {
      CutLive(rels[1..], live[1..], k, len);
      assert LowerRels(rels, live, k, len - k)[1..] == LowerRels(rels[1..], live[1..], k, len - k);
      assert Kept(rels, live, k, len - k)[1..] == Kept(rels[1..], live[1..], k, len - k);
      assert live[0] ==> RelFits(rels[0], len);
    }
  }

  /** The live relocations of the merged block are exactly those of dst that lie wholly in front
      of k, as they were, followed by those of src moved behind k. */
  lemma MergedRels(d: Block, s: Block, k: nat)
    requires RefsOk(d) && Shaped(s) && k < |d.code|
    ensures LiveRels(Merged(d, s, k)) == LiveBefore(d.rels, d.live, k) + LiveShifted(s.rels, s.live, k)
  {
    var c, added := Cut(d, k, |d.code| - k), LiveShifted(s.rels, s.live, k);
    CutLive(d.rels, d.live, k, |d.code|);
    assert c.live == Kept(d.rels, d.live, k, |d.code| - k);
    LiveShiftedAppend(c.rels, c.live, added, AllTrue(|added|), 0);
    AllLive(added);
  }

  /** Each relocation taken over is a live one of src, moved. */
  lemma {:induction false} TakenFrom(rels: seq<Rel>, live: seq<bool>, d: nat, q: nat) returns (j: nat)
    requires |rels| == |live| && q < |LiveShifted(rels, live, d)|
    ensures j < |rels| && live[j] && LiveShifted(rels, live, d)[q] == rels[j].(tcOffset := rels[j].tcOffset + 4 * d)
  {
    if live[0] && q == 0 {
      j := 0;
    } else {
      j := TakenFrom(rels[1..], live[1..], d, if live[0] then q - 1 else q);
      j := j + 1;
    }
  }

  lemma {:induction false} TakenTo(rels: seq<Rel>, live: seq<bool>, d: nat, j: nat) returns (q: nat)
    requires |rels| == |live| && j < |rels| && live[j]
    ensures q < |LiveShifted(rels, live, d)|
    ensures LiveShifted(rels, live, d)[q] == rels[j].(tcOffset := rels[j].tcOffset + 4 * d)
  {
    if j == 0 {
      q := 0;
    } else {
      q := TakenTo(rels[1..], live[1..], d, j - 1);
      q := if live[0] then q + 1 else q;
    }
  }

  lemma TakenFits(rels: seq<Rel>, live: seq<bool>, d: nat, len: nat)
    requires |rels| == |live| && RelsFit(rels, live, len)
    ensures forall q :: 0 <= q < |LiveShifted(rels, live, d)| ==>
              RelFits(LiveShifted(rels, live, d)[q], d + len) && 4 * d <= LiveShifted(rels, live, d)[q].tcOffset
  {
    forall q | 0 <= q < |LiveShifted(rels, live, d)|
      ensures RelFits(LiveShifted(rels, live, d)[q], d + len) && 4 * d <= LiveShifted(rels, live, d)[q].tcOffset
    {
      var j := TakenFrom(rels, live, d, q);
    }
  }

  ghost predicate AllApart(a: seq<Rel>) { forall i, j :: 0 <= i < j < |a| ==> Apart(a[i], a[j]) }

  lemma {:induction false} TakenApart(rels: seq<Rel>, live: seq<bool>, d: nat)
    requires |rels| == |live| && RelsApart(rels, live)
    ensures AllApart(LiveShifted(rels, live, d))
  {
    if rels != [] {
      var a, t := LiveShifted(rels, live, d), LiveShifted(rels[1..], live[1..], d);
      assert RelsApart(rels[1..], live[1..]);
      TakenApart(rels[1..], live[1..], d);
      if live[0] {
        forall q | 0 <= q < |t|
          ensures Apart(a[0], t[q])
        {
          var j := TakenFrom(rels[1..], live[1..], d, q);
          assert rels[1..][j] == rels[j + 1] && live[j + 1];
        }
        forall i, j | 0 <= i < j < |a|
          ensures Apart(a[i], a[j])
        {
          if i > 0 {
            assert Apart(t[i - 1], t[j - 1]);
          } else {
            assert Apart(a[0], t[j - 1]);
          }
        }
      } else {
        assert a == t;
      }
    }
  }

  lemma CutInFront(d: Block, k: nat, j: nat)
    requires RefsOk(d) && k < |d.code| && j < |d.rels|
    ensures var c := Cut(d, k, |d.code| - k);
            && c.live[j] == (d.live[j] && d.rels[j].tcOffset + 4 * d.rels[j].slots <= 4 * k)
            && (c.live[j] ==> c.rels[j] == d.rels[j])
  {
    assert d.live[j] ==> RelFits(d.rels[j], |d.code|);
  }

  /** A merge yields a well-formed block. */
  lemma MergedWf(d: Block, s: Block, k: nat)
    requires RefsOk(d) && RefsOk(s) && k < |d.code| && 4 * (k + |s.code|) < TWO32
    ensures Wf(Merged(d, s, k))
  {
    var m, c, added := Merged(d, s, k), Cut(d, k, |d.code| - k), LiveShifted(s.rels, s.live, k);
    var n := |d.rels|;
    TakenFits(s.rels, s.live, k, |s.code|);
    TakenApart(s.rels, s.live, k);
    CutRefs(d, k, |d.code| - k);
    forall j | 0 <= j < |m.rels| && m.live[j]
      ensures RelFits(m.rels[j], |m.code|) && (j < n ==> m.rels[j].tcOffset + 4 * m.rels[j].slots <= 4 * k)
      ensures (j >= n ==> 4 * k <= m.rels[j].tcOffset)
    {
      if j < n { CutInFront(d, k, j); }
    }
    forall i, j | 0 <= i < j < |m.rels| && m.live[i] && m.live[j]
      ensures Apart(m.rels[i], m.rels[j])
    {
      if j < n {
        assert c.live[i] && c.live[j] && Apart(c.rels[i], c.rels[j]);
      } else if i >= n {
        assert Apart(added[i - n], added[j - n]);
      } else {
        assert m.rels[i].tcOffset + 4 * m.rels[i].slots <= 4 * k <= m.rels[j].tcOffset;
      }
    }
  }

  /** No live relocation has slots on both sides of the exit at k. */
  ghost predicate NoStraddle(b: Block, k: nat)
    requires Shaped(b)
  {
    forall j :: 0 <= j < |b.rels| && b.live[j] ==>
      !(b.rels[j].tcOffset < 4 * k < b.rels[j].tcOffset + 4 * b.rels[j].slots)
  }

  lemma CoveredInFront(d: Block, s: Block, k: nat, q: nat)
    requires RefsOk(d) && RefsOk(s) && k < |d.code| && q < k
    ensures Covered(Merged(d, s, k), q) <==>
              exists j :: 0 <= j < |d.rels| && d.live[j] && Covers(d.rels[j], q)
                && d.rels[j].tcOffset + 4 * d.rels[j].slots <= 4 * k
  {
    var m := Merged(d, s, k);
    TakenFits(s.rels, s.live, k, |s.code|);
    forall j | 0 <= j < |d.rels|
      ensures m.live[j] == (d.live[j] && d.rels[j].tcOffset + 4 * d.rels[j].slots <= 4 * k)
      ensures (m.live[j] ==> m.rels[j] == d.rels[j])
    {
      CutInFront(d, k, j);
    }
    forall j | |d.rels| <= j < |m.rels|
      ensures !Covers(m.rels[j], q)
    {
      assert m.rels[j] == LiveShifted(s.rels, s.live, k)[j - |d.rels|];
    }
  }

  lemma CoveredBehind(d: Block, s: Block, k: nat, q: nat)
    requires RefsOk(d) && RefsOk(s) && k < |d.code| && q < |s.code|
    ensures Covered(Merged(d, s, k), k + q) == Covered(s, q)
  {
    hide RelsFit, RelsApart, ExitsAligned, LiveShifted;
    var m, n := Merged(d, s, k), |d.rels|;
    forall j | 0 <= j < n && m.live[j]
      ensures !Covers(m.rels[j], k + q)
    {
      CutInFront(d, k, j);
    }
    if Covered(m, k + q) {
      var j :| 0 <= j < |m.rels| && m.live[j] && Covers(m.rels[j], k + q);
      assert j >= n && m.rels[j] == LiveShifted(s.rels, s.live, k)[j - n];
      var i := TakenFrom(s.rels, s.live, k, j - n);
      assert Covers(s.rels[i], q);
    }
    if Covered(s, q) {
      var i :| 0 <= i < |s.rels| && s.live[i] && Covers(s.rels[i], q);
      var t := TakenTo(s.rels, s.live, k, i);
      assert m.rels[n + t] == LiveShifted(s.rels, s.live, k)[t] && m.live[n + t];
      assert Covers(m.rels[n + t], k + q);
    }
  }

  lemma SlotsBehind(d: Block, s: Block, k: nat)
    requires RefsOk(d) && RefsOk(s) && k < |d.code|
    ensures |Slots(Merged(d, s, k))| == k + |s.code| && Slots(Merged(d, s, k))[k..] == Slots(s)
  {
    var x := Slots(Merged(d, s, k));
    forall q | 0 <= q < |s.code|
      ensures x[k..][q] == Slots(s)[q]
    {
      CoveredBehind(d, s, k, q);
    }
  }

  lemma SlotsInFront(d: Block, s: Block, k: nat)
    requires RefsOk(d) && RefsOk(s) && k < |d.code| && NoStraddle(d, k)
    ensures Slots(Merged(d, s, k))[..k] == Slots(d)[..k]
  {
    var x := Slots(Merged(d, s, k));
    forall q | 0 <= q < k
      ensures x[..k][q] == Slots(d)[..k][q]
    {
      CoveredInFront(d, s, k, q);
    }
  }

  /** A straddling relocation dies and unpins the last slot in front of the exit. */
  lemma StraddleShows(d: Block, s: Block, k: nat)
    requires RefsOk(d) && RefsOk(s) && k < |d.code| && !NoStraddle(d, k)
    ensures k > 0 && !Slots(Merged(d, s, k))[k - 1].pinned && Slots(d)[k - 1].pinned
  {
    var j :| 0 <= j < |d.rels| && d.live[j] && d.rels[j].tcOffset < 4 * k < d.rels[j].tcOffset + 4 * d.rels[j].slots;
    assert RelFits(d.rels[j], |d.code|);
    assert Covers(d.rels[j], k - 1);
    CoveredInFront(d, s, k, k - 1);
    forall i | 0 <= i < |d.rels| && i != j && d.live[i]
      ensures !Covers(d.rels[i], k - 1)
    {
      assert Apart(d.rels[i], d.rels[j]) || Apart(d.rels[j], d.rels[i]);
    }
  }

  lemma MergeOk(d: Block, s: Block, k: nat)
    requires RefsOk(d) && RefsOk(s) && k < |d.code|
    ensures Shaped(d) && Shaped(s) && Shaped(Merged(d, s, k))
  {
  }

  /** The merged block is slot for slot dst in front of k and then src, relocated code included,
      if and only if no live relocation of dst straddles the exit: one that does is killed
      while its slots in front of k stay behind. */
  lemma MergedSlots(d: Block, s: Block, k: nat)
    requires RefsOk(d) && RefsOk(s) && k < |d.code|
    ensures Slots(Merged(d, s, k)) == Slots(d)[..k] + Slots(s) <==> NoStraddle(d, k)
  {
    hide *;
    MergeOk(d, s, k);
    SlotsBehind(d, s, k);
    if NoStraddle(d, k) {
      SlotsInFront(d, s, k);
      assert Slots(Merged(d, s, k)) == Slots(Merged(d, s, k))[..k] + Slots(Merged(d, s, k))[k..];
    } else {
      StraddleShows(d, s, k);
      assert (Slots(d)[..k] + Slots(s))[k - 1] == Slots(d)[k - 1];
    }
  }

  // ----- the merge as it runs -----

  /** Appending one copied instruction at position q keeps the branch lists exact. */
  method AppendInsn(tb: TB, prev: ListNode<Insn>, insn: Insn, index: nat) returns (node: ListNode<Insn>)
    requires tb.Valid() && BranchExact(tb.View()) && index == tb.insns.size && prev == tb.insns.chain[index]
    modifies tb`bInsns, tb`bneInsns, tb`otherBInsns, tb.insns, tb.insns.Repr
    ensures tb.Valid() && BranchExact(tb.View()) && fresh(tb.insns.Repr - old(tb.insns.Repr))
    ensures tb.View().code == old(tb.View()).code + [insn]
    ensures tb.insns.size == index + 1 && node == tb.insns.chain[index + 1]
  {
    ghost var code := tb.View().code;
    node := new ListNode<Insn>(Some(insn));
    node := tb.insns.InsertAfter(prev, node, index);
    tb.AddBranchEntry(ClassOf(insn.opc), index);
    PositionsLast(code, insn, ClassB);
    PositionsLast(code, insn, ClassBne);
    PositionsLast(code, insn, ClassOther);
    assert tb.View().code == code + [insn];
  }

  /** The loop that pushes the live relocations of src, moved behind position k. */
  method TakeRels(dst: TB, src: TB, k: nat)
    requires dst != src && dst.Valid() && src.Valid()
    modifies dst`rels, dst`relsValid
    ensures dst.Valid() && src.Valid() && src.View() == old(src.View())
    ensures var all := LiveShifted(src.View().rels, src.View().live, k);
            dst.View()
              == old(dst.View()).(rels := old(dst.View()).rels + all, live := old(dst.View()).live + AllTrue(|all|))
  {
    ghost var all := LiveShifted(src.rels, src.relsValid, k);
    for i := 0 to |src.rels|
      invariant dst.Valid() && src.rels == old(src.rels) && src.relsValid == old(src.relsValid)
      invariant dst.rels + LiveShifted(src.rels[i..], src.relsValid[i..], k) == old(dst.rels) + all
      invariant dst.relsValid + AllTrue(|LiveShifted(src.rels[i..], src.relsValid[i..], k)|)
                  == old(dst.relsValid) + AllTrue(|all|)
    {
      assert src.rels[i..][1..] == src.rels[i + 1..] && src.relsValid[i..][1..] == src.relsValid[i + 1..];
      if src.relsValid[i] {
        dst.relsValid := dst.relsValid + [true];
        dst.rels := dst.rels + [src.rels[i].(tcOffset := src.rels[i].tcOffset + 4 * k)];
      }
    }
  }

  /** Two blocks in separate memory. */
  ghost predicate Separate(dst: TB, src: TB)
    reads dst, dst.insns, dst.insns.Repr, src, src.insns, src.insns.Repr
  {
    dst != src && dst.insns != src.insns && dst.insns.Repr !! src.insns.Repr && dst.Valid() && src.Valid()
  }

  /** One round of the copying loop. */
  method TakeOne(dst: TB, src: TB, at: ListNode<Insn>, from: ListNode<Insn>, curIndex: nat, ghost n: nat)
    returns (node: ListNode<Insn>)
    requires Separate(dst, src) && BranchExact(dst.View()) && curIndex == dst.insns.size
    requires at == dst.insns.chain[curIndex]
    requires n < src.insns.size && from == src.insns.chain[n + 1]
    modifies dst`bInsns, dst`bneInsns, dst`otherBInsns, dst.insns, dst.insns.Repr
    ensures Separate(dst, src) && BranchExact(dst.View()) && fresh(dst.insns.Repr - old(dst.insns.Repr))
    ensures src.View() == old(src.View()) && src.insns.chain == old(src.insns.chain)
    ensures from.next == src.insns.chain[n + 2]
    ensures dst.insns.size == curIndex + 1 && node == dst.insns.chain[curIndex + 1]
    ensures dst.View().code == old(dst.View()).code + [src.View().code[n]]
  {
    assert src.insns.chain[n + 1].next == src.insns.chain[n + 2];
    assert src.insns.Contents()[n] == from.data.value;
    node := AppendInsn(dst, at, from.data.value, curIndex);
    assert src.insns.chain[n + 1].next == src.insns.chain[n + 2];
  }

  /** The loop that copies the instructions of src behind the ones kept in dst. */
  method TakeCode(dst: TB, src: TB, last: ListNode<Insn>, k: nat)
    requires Separate(dst, src) && BranchExact(dst.View()) && k == dst.insns.size && last == dst.insns.chain[k]
    modifies dst`bInsns, dst`bneInsns, dst`otherBInsns, dst.insns, dst.insns.Repr
    ensures Separate(dst, src) && BranchExact(dst.View()) && fresh(dst.insns.Repr - old(dst.insns.Repr))
    ensures src.View() == old(src.View())
    ensures dst.View().code == old(dst.View()).code + src.View().code
  {
    hide BranchExact, LinkList<Insn>.Contents;
    ghost var s, d := src.View().code, dst.View().code;
    var curIndex := k;
    var curUnify := last;
    var iter := src.insns.Begin();
    ghost var n := 0;
    while iter != src.insns.tail
      invariant 0 <= n <= src.insns.size && curIndex == k + n && iter == src.insns.chain[n + 1]
      invariant Separate(dst, src) && src.View() == old(src.View()) && BranchExact(dst.View())
      invariant fresh(dst.insns.Repr - old(dst.insns.Repr))
      invariant src.insns.chain == old(src.insns.chain)
      invariant curIndex == dst.insns.size && curUnify == dst.insns.chain[curIndex]
      invariant dst.View().code == d + s[..n]
      decreases src.insns.size - n
    {
      curUnify := TakeOne(dst, src, curUnify, iter, curIndex, n);
      assert s[..n + 1] == s[..n] + [s[n]];
      iter := iter.next;
      curIndex := curIndex + 1;
      n := n + 1;
    }
    assert s[..n] == s;
  }

  /** What a merge needs of its two blocks: separate memory, sound references, an exit on its B, and
      a result whose byte offsets still fit. */
  ghost predicate CanMerge(dst: TB, src: TB, w: nat)
    reads dst, dst.insns, dst.insns.Repr, src, src.insns, src.insns.Repr
  {
    && Separate(dst, src) && RefsOk(dst.View()) && BranchExact(dst.View())
    && w < 2 && ValidExit(dst.View(), w) && ExitOk(dst.View(), w)
    && 4 * (dst.jmpTarget[w] / 4 + src.insns.size) < TWO32
  }

  lemma CutExact(b: Block, k: nat)
    requires Shaped(b) && k <= |b.code|
    ensures BranchExact(Cut(b, k, |b.code| - k))
  {
  }

  /** Deletes dst from its exit on and returns the node in front, for the copies to follow. */
  method CutAtExit(dst: TB, src: TB, w: nat) returns (last: ListNode<Insn>, k: nat)
    requires CanMerge(dst, src, w)
    modifies dst`rels, dst`relsValid, dst`jmpTarget, dst`bInsns,
               dst`bneInsns, dst`otherBInsns, dst.insns, dst.insns.Repr
    ensures k == old(dst.jmpTarget[w]) / 4 && k < old(dst.insns.size)
    ensures Separate(dst, src) && src.View() == old(src.View())
    ensures dst.insns.Repr == old(dst.insns.Repr) && dst.insns.size == k && last == dst.insns.chain[k]
    ensures BranchExact(dst.View()) && dst.View() == Cut(old(dst.View()), k, |old(dst.View()).code| - k)
  {
    hide Cut, RelsFit, RelsApart, BranchExact, LinkList.Contents;
    ghost var b, ch := dst.View(), dst.insns.chain;
    CutExact(b, b.target[w] / 4);
    assert ExitOk(b, w);
    k := dst.jmpTarget[w] / 4;
    var count := dst.insns.size - k;
    var curInsn := dst.insns.Get(k);
    assert dst.insns.chain[k + 1].prev == dst.insns.chain[k];
    last := curInsn.prev;
    var _ := dst.DeleteRun(curInsn, k, count);
    assert dst.insns.chain[..k + 1][k] == ch[..k + 1][k];
  }

  /** The assignments at the end: src has no exits, so dst has none left either. */
  method TakeExits(dst: TB, src: TB)
    requires Separate(dst, src) && NoSuccessor(src)
    modifies dst`jmpReset, dst`trueBranch, dst`falseBranch
    ensures Separate(dst, src) && src.View() == old(src.View())
    ensures dst.View() == old(dst.View()).(reset := [INVALID, INVALID])
    ensures dst.trueBranch == src.trueBranch && dst.falseBranch == src.falseBranch
  {
    dst.jmpReset := [INVALID, INVALID];
    dst.trueBranch := src.trueBranch;
    dst.falseBranch := src.falseBranch;
  }

  /** unify_srcblock_no_successor */
  method Unify(dst: TB, src: TB, w: nat) returns (merged: bool)
    requires CanMerge(dst, src, w)
    modifies dst`rels, dst`relsValid, dst`jmpTarget, dst`jmpReset, dst`bInsns, dst`bneInsns, dst`otherBInsns,
             dst`trueBranch, dst`falseBranch, dst.insns, dst.insns.Repr
    ensures Separate(dst, src) && src.View() == old(src.View())
    ensures fresh(dst.insns.Repr - old(dst.insns.Repr))
    ensures merged == NoSuccessor(src)
    ensures !merged ==>
              dst.View() == old(dst.View()) && dst.trueBranch == old(dst.trueBranch)
              && dst.falseBranch == old(dst.falseBranch)
    ensures merged ==>
              && dst.View() == Merged(old(dst.View()), src.View(), old(dst.jmpTarget[w]) / 4)
              && dst.trueBranch == src.trueBranch && dst.falseBranch == src.falseBranch
  {
    if !NoSuccessor(src) {
      return false;
    }
    merged := true;
    var k := Splice(dst, src, w);
    TakeExits(dst, src);
  }

  method Splice(dst: TB, src: TB, w: nat) returns (k: nat)
    requires CanMerge(dst, src, w)
    modifies dst`rels, dst`relsValid, dst`jmpTarget, dst`bInsns,
               dst`bneInsns, dst`otherBInsns, dst.insns, dst.insns.Repr
    ensures Separate(dst, src) && src.View() == old(src.View())
    ensures fresh(dst.insns.Repr - old(dst.insns.Repr))
    ensures k == old(dst.jmpTarget[w]) / 4 && k < |old(dst.View()).code|
    ensures dst.View().(reset := [INVALID, INVALID]) == Merged(old(dst.View()), src.View(), k)
  {
    hide Wf, Cut, Merged, LiveShifted, BranchExact, ValidExit, LinkList.Contents, LinkList.Valid;
    ghost var d, s := dst.View(), src.View();
    var last;
    last, k := CutAtExit(dst, src, w);
    ghost var c := dst.View();
    TakeRels(dst, src, k);
    BranchKept(c, dst.View());
    TakeCode(dst, src, last, k);
    MergedFields(d, s, k, dst.View());
  }

  lemma BranchKept(b: Block, c: Block)
    requires BranchExact(b) && c.code == b.code && c.bs == b.bs && c.bnes == b.bnes && c.others == b.others
    ensures BranchExact(c)
  {
  }

  lemma MergedFields(d: Block, s: Block, k: nat, r: Block)
    requires Shaped(d) && Shaped(s) && k <= |d.code| && Shaped(r) && BranchExact(r)
    requires var c := Cut(d, k, |d.code| - k);
             && r.code == c.code + s.code && r.rels == c.rels + LiveShifted(s.rels, s.live, k)
             && r.live == c.live + AllTrue(|LiveShifted(s.rels, s.live, k)|) && r.target == c.target
    ensures r.(reset := [INVALID, INVALID]) == Merged(d, s, k)
  {
    assert Cut(d, k, |d.code| - k).code == d.code[..k];
  }
}
