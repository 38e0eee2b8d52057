/** The mutable block of include/AOT_class/aot_class.hpp and its editing methods
    (lib/AOT_class/aot_class.cpp).  Every method is tied to a function on the
    block's value, `View()`. */
module Tbs {
  import opened Isa
  import opened Blocks
  import opened LinkLists

  method EraseEntry(s: seq<nat>, i: nat) returns (r: seq<nat>)
    ensures r == EraseFirst(s, i)
  {
    hide EraseFirst;
    for k := 0 to |s|
      invariant forall j :: 0 <= j < k ==> s[j] != i
    {
      if s[k] == i {
        EraseHere(s, i, k);
        return s[..k] + s[k + 1..];
      }
    }
    EraseHere(s, i, |s|);
    r := s;
  }

  lemma {:induction false} EraseHere(s: seq<nat>, i: nat, k: nat)
    requires k <= |s| && (k < |s| ==> s[k] == i) && forall j :: 0 <= j < k ==> s[j] != i
    ensures EraseFirst(s, i) == if k < |s| then s[..k] + s[k + 1..] else s
    decreases k
  {
    if k > 0 {
      EraseHere(s[1..], i, k - 1);
      assert s == [s[0]] + s[1..];
    }
  }

  method LowerEntries(s: seq<nat>, i: nat) returns (r: seq<nat>)
    ensures r == LowerAfter(s, i)
  {
    r := s;
    for k := 0 to |s|
      invariant |r| == |s|
      invariant forall j :: 0 <= j < |s| ==> r[j] == if j < k then LowerAfter(s, i)[j] else s[j]
    {
      if r[k] > i {
        r := r[k := r[k] - 1];
      }
    }
  }

  method RaiseEntries(s: seq<nat>, i: nat) returns (r: seq<nat>)
    ensures r == RaiseAfter(s, i)
  {
    r := s;
    for k := 0 to |s|
      invariant |r| == |s|
      invariant forall j :: 0 <= j < |s| ==> r[j] == if j < k then RaiseAfter(s, i)[j] else s[j]
    {
      if r[k] > i {
        r := r[k := r[k] + 1];
      }
    }
  }

  lemma NothingListed()
    ensures forall c :: Positions([], c) == []
  {
  }

  lemma PositionsLast(code: seq<Insn>, x: Insn, c: BranchClass)
    ensures Positions(code + [x], c) == Positions(code, c) + (if ClassOf(x.opc) == c then [|code|] else [])
  {
    PositionsAppend(code, [x], c, 0);
    assert [x][1..] == [];
  }

  /** A signed 32-bit index, widened to an unsigned 64-bit one. */
  function U64(x: int): int { if x < 0 then x + TWO64 else x }

  /** What TB_AddRels_Vistor::visit takes from the relocation table, counting unsigned from start to
      end inclusive; None if that runs off the table. */
  function Slice(table: seq<Rel>, start: int, end: int): Option<seq<Rel>>
    requires -TWO64 <= start && -TWO64 <= end
  {
    if U64(start) > U64(end) then Some([])
    else if U64(end) < |table| then Some(table[U64(start)..U64(end) + 1])
    else None
  }

  /** A chain without the n nodes from list position p on. */
  ghost function Without(ch: seq<ListNode<Insn>>, p: nat, n: nat): seq<ListNode<Insn>>
    requires p + 1 + n <= |ch|
  {
    ch[..p + 1] + ch[p + 1 + n..]
  }

  class TB {
    const x86Addr: nat
    const x86Offset: seq<nat>
    const insns: LinkList<Insn>
    var rels: seq<Rel>
    var relsValid: seq<bool>
    var bInsns: seq<nat>
    var bneInsns: seq<nat>
    var otherBInsns: seq<nat>
    var jmpReset: seq<nat>
    var jmpTarget: seq<nat>
    var trueBranch: TB?
    var falseBranch: TB?
    var parents: seq<TB>
    var peepholeAvailable: bool

    ghost predicate Valid()
      reads `rels, `relsValid, `jmpReset, `jmpTarget, insns, insns.Repr
    {
      insns.Valid() && |rels| == |relsValid| && |jmpReset| == 2 && |jmpTarget| == 2
    }

    ghost function View(): (b: Block)
      requires Valid()
      reads `rels, `relsValid, `bInsns, `bneInsns, `otherBInsns, `jmpReset, `jmpTarget, insns, insns.Repr
      ensures Shaped(b)
    {
      Block(insns.Contents(), rels, relsValid, bInsns, bneInsns, otherBInsns, jmpReset, jmpTarget)
    }

    /** A block with the given relocations and exits and no instructions yet. */
    constructor (addr: nat, offsets: seq<nat>, reset: seq<nat>, target: seq<nat>)
      requires |reset| == 2 && |target| == 2
      ensures Valid() && fresh(insns) && fresh(insns.Repr)
      ensures View() == Block([], [], [], [], [], [], reset, target)
      ensures x86Addr == addr && x86Offset == offsets && trueBranch == null && falseBranch == null && parents == []
    {
      x86Addr, x86Offset := addr, offsets;
      insns := new LinkList<Insn>();
      rels, relsValid := [], [];
      bInsns, bneInsns, otherBInsns := [], [], [];
      jmpReset, jmpTarget := reset, target;
      trueBranch, falseBranch, parents := null, null, [];
      peepholeAvailable := false;
    }

    method InScopeOfRel(start: nat, count: nat) returns (r: bool)
      requires Valid() && RefsOk(View()) && 1 <= count
      ensures r <==> exists j :: 0 <= j < |rels| && relsValid[j] && Overlaps(rels[j], start, count)
    {
      var endIndex := start + count - 1;
      for i := 0 to |rels|
        invariant forall j :: 0 <= j < i ==> !(relsValid[j] && Overlaps(rels[j], start, count))
      {
        if relsValid[i] {
          assert RelFits(View().rels[i], |View().code|);
          var relStart := rels[i].tcOffset / 4;
          var relEnd := relStart + rels[i].slots - 1;
          if !(endIndex < relStart || relEnd < start) {
            return true;
          }
        }
      }
      return false;
    }

    /** __delete_b_insn and adjust_index_of_branchs_when_delete_insn */
    method AdjustBranches(c: BranchClass, i: nat)
      modifies `bInsns, `bneInsns, `otherBInsns
      ensures bInsns == DropEntry(old(bInsns), i, c, ClassB)
      ensures bneInsns == DropEntry(old(bneInsns), i, c, ClassBne)
      ensures otherBInsns == DropEntry(old(otherBInsns), i, c, ClassOther)
    {
      match c {
        case ClassB => bInsns := EraseEntry(bInsns, i);
        case ClassBne => bneInsns := EraseEntry(bneInsns, i);
        case ClassOther => otherBInsns := EraseEntry(otherBInsns, i);
        case NotBranch =>
      }
      bInsns := LowerEntries(bInsns, i);
      bneInsns := LowerEntries(bneInsns, i);
      otherBInsns := LowerEntries(otherBInsns, i);
    }

    /** The two loops that move relocations and exits behind a deleted instruction. */
    method AdjustRelsAndExits(i: nat)
      requires |rels| == |relsValid| && |jmpReset| == 2 && |jmpTarget| == 2
      requires forall j :: 0 <= j < |rels| && relsValid[j] ==> rels[j].tcOffset % 4 == 0
      requires forall w :: 0 <= w < 2 && jmpReset[w] != INVALID ==> jmpTarget[w] % 4 == 0
      modifies `rels, `jmpTarget
      ensures rels == LowerRels(old(rels), relsValid, i, 1)
      ensures jmpTarget == LowerExits(jmpReset, old(jmpTarget), i, 1)
    {
      for j := 0 to |rels|
        invariant |rels| == |old(rels)| && jmpTarget == old(jmpTarget)
        invariant forall k :: 0 <= k < |rels| ==>
                    rels[k] == if k < j then LowerRels(old(rels), relsValid, i, 1)[k] else old(rels)[k]
      {
        if relsValid[j] && 4 * i < rels[j].tcOffset {
          rels := rels[j := rels[j].(tcOffset := rels[j].tcOffset - 4)];
        }
      }
      for w := 0 to 2
        invariant |jmpTarget| == 2 && rels == LowerRels(old(rels), relsValid, i, 1)
        invariant forall k :: 0 <= k < 2 ==>
                    jmpTarget[k] == if k < w then LowerExits(jmpReset, old(jmpTarget), i, 1)[k] else old(jmpTarget)[k]
      {
        if jmpReset[w] != INVALID && jmpTarget[w] > 4 * i {
          jmpTarget := jmpTarget[w := jmpTarget[w] - 4];
        }
      }
    }

    /** A write through the data pointer of the node at position p. */
    method SetInsn(node: ListNode<Insn>, v: Insn, ghost p: nat)
      requires Valid() && p < insns.size && node == insns.chain[p + 1]
      modifies insns.Repr
      ensures Valid() && View() == old(View()).(code := old(View()).code[p := v])
    {
      insns.SetData(node, v, p);
    }

    /** Deletes the node at list position pos, using index i for every adjustment.  Refuses,
        and changes nothing, when a live relocation covers index i. */
    method DeleteIthInsn(node: ListNode<Insn>, i: nat, ghost pos: nat) returns (next: ListNode<Insn>)
      requires Valid() && Aligned(View()) && pos < insns.size && node == insns.chain[pos + 1]
      modifies `rels, `jmpTarget, `bInsns, `bneInsns, `otherBInsns, insns, insns.Repr
      ensures Valid() && insns.Repr == old(insns.Repr)
      ensures Covered(old(View()), i) ==>
                View() == old(View()) && insns.chain == old(insns.chain) && next == node
      ensures !Covered(old(View()), i) ==>
                && View() == DropInsn(old(View()), pos, i) && next == insns.chain[pos + 1]
                && insns.chain == Without(old(insns.chain), pos, 1)
    {
      for j := 0 to |rels|
        invariant forall k :: 0 <= k < j ==> !(relsValid[k] && Covers(rels[k], i))
      {
        if relsValid[j] && rels[j].tcOffset <= 4 * i < rels[j].tcOffset + 4 * rels[j].slots {
          assert View().live[j] && Covers(View().rels[j], i);
          return node;
        }
      }
      assert insns.Contents()[pos] == node.data.value;
      AdjustBranches(ClassOf(node.data.value.opc), i);
      AdjustRelsAndExits(i);
      next := insns.Remove(node, pos);
    }

    /** The loop that kills the first live relocation covering index i: since live
        relocations are disjoint there is no second one. */
    method KillCovering(i: nat)
      requires Valid() && RelsApart(rels, relsValid)
      modifies `relsValid
      ensures Valid() && View() == KillAt(old(View()), i)
    {
      ghost var b := View();
      var j := 0;
      while j < |rels|
        invariant 0 <= j <= |rels|
        invariant forall k :: 0 <= k < j ==> !(relsValid[k] && Covers(rels[k], i))
      {
        if relsValid[j] && rels[j].tcOffset <= 4 * i < rels[j].tcOffset + 4 * rels[j].slots {
          relsValid := relsValid[j := false];
          break;
        }
        j := j + 1;
      }
      forall k | 0 <= k < |b.live|
        ensures relsValid[k] == KillAt(b, i).live[k]
      {
        if k > j { assert b.live[j] && b.live[k] ==> Apart(b.rels[j], b.rels[k]); }
      }
    }

    /** Deletes the i-th instruction together with the relocation that covers it. */
    method DeleteIthInsnAlongWithRel(node: ListNode<Insn>, i: nat) returns (next: ListNode<Insn>)
      requires Valid() && RefsOk(View()) && BranchExact(View()) && i < insns.size && node == insns.chain[i + 1]
      modifies `rels, `relsValid, `jmpTarget, `bInsns, `bneInsns, `otherBInsns, insns, insns.Repr
      ensures insns.Repr == old(insns.Repr)
      ensures Valid() && View() == Cut(old(View()), i, 1) && next == insns.chain[i + 1]
      ensures insns.chain == Without(old(insns.chain), i, 1)
    {
      hide RelsFit, RelsApart, BranchExact, Cut, DropEntry, LowerRels, LowerExits, Covers;
      DropIsCut(View(), i);
      RefsAligned(View());
      KillCovering(i);
      assert insns.Contents()[i] == node.data.value;
      AdjustBranches(ClassOf(node.data.value.opc), i);
      AdjustRelsAndExits(i);
      next := insns.Remove(node, i);
    }

    /** One round of a deletion run: the block is what is left of b after `done` rounds. */
    method DeleteNext(node: ListNode<Insn>, i: nat, ghost b: Block, ghost done: nat) returns (next: ListNode<Insn>)
      requires Valid() && RefsOk(b) && i + done < |b.code| && View() == Cut(b, i, done)
      requires i < insns.size && node == insns.chain[i + 1]
      modifies `rels, `relsValid, `jmpTarget, `bInsns, `bneInsns, `otherBInsns, insns, insns.Repr
      ensures insns.Repr == old(insns.Repr)
      ensures Valid() && View() == Cut(b, i, done + 1) && insns.size == old(insns.size) - 1
      ensures next == insns.chain[i + 1] && insns.chain[..i + 1] == old(insns.chain)[..i + 1]
    {
      CutRefs(b, i, done);
      CutCut(b, i, done);
      next := DeleteIthInsnAlongWithRel(node, i);
    }

    /** The loops `while(count > 0)` that delete count instructions, all at index i. */
    method DeleteRun(node: ListNode<Insn>, i: nat, count: nat) returns (next: ListNode<Insn>)
      requires Valid() && RefsOk(View()) && BranchExact(View()) && i + count <= insns.size && node == insns.chain[i + 1]
      modifies `rels, `relsValid, `jmpTarget, `bInsns, `bneInsns, `otherBInsns, insns, insns.Repr
      ensures insns.Repr == old(insns.Repr)
      ensures Valid() && View() == Cut(old(View()), i, count) && insns.size == old(insns.size) - count
      ensures next == insns.chain[i + 1] && insns.chain[..i + 1] == old(insns.chain)[..i + 1]
    {
      ghost var b, done := View(), 0;
      next := node;
      CutNothing(b, i);
      var left := count;
      while left > 0
        invariant 0 <= left && 0 <= done && done + left == count && Valid()
        invariant insns.size + done == old(insns.size)
        invariant View() == Cut(b, i, done)
        invariant next == insns.chain[i + 1] && insns.chain[..i + 1] == old(insns.chain)[..i + 1]
        invariant insns.Repr == old(insns.Repr)
      {
        next := DeleteNext(next, i, b, done);
        left, done := left - 1, done + 1;
      }
    }

    /** Deletes the slot range of relocation i, and with it the relocation. */
    method DeleteIthRel(i: nat) returns (next: Option<ListNode<Insn>>)
      requires Valid() && RefsOk(View()) && BranchExact(View()) && i < |rels|
      modifies `rels, `relsValid, `jmpTarget, `bInsns, `bneInsns, `otherBInsns, insns, insns.Repr
      ensures Valid() && insns.Repr == old(insns.Repr)
      ensures View() == if old(relsValid[i]) then Cut(old(View()), old(rels[i]).tcOffset / 4, old(rels[i]).slots)
                        else old(View())
      ensures old(relsValid[i]) ==> !relsValid[i]
      ensures forall j :: 0 <= j < |rels| && j != i ==> relsValid[j] == old(relsValid[j])
      ensures next == if old(relsValid[i]) then Some(insns.chain[old(rels[i]).tcOffset / 4 + 1]) else None
    {
      if relsValid[i] {
        assert RefsOk(View()) && View().live[i];
        var rel := rels[i];
        var ith := rel.tcOffset / 4;
        var insn := insns.Get(ith);
        insn := DeleteRun(insn, ith, rel.slots);
        next := Some(insn);
      } else {
        next := None;
      }
    }

    // ----- construction -----

    /** check_and_add_branch_insn and __add_b_insn */
    method AddBranchEntry(c: BranchClass, i: nat)
      modifies `bInsns, `bneInsns, `otherBInsns
      ensures bInsns == old(bInsns) + (if c == ClassB then [i] else [])
      ensures bneInsns == old(bneInsns) + (if c == ClassBne then [i] else [])
      ensures otherBInsns == old(otherBInsns) + (if c == ClassOther then [i] else [])
    {
      match c {
        case ClassB => bInsns := bInsns + [i];
        case ClassBne => bneInsns := bneInsns + [i];
        case ClassOther => otherBInsns := otherBInsns + [i];
        case NotBranch =>
      }
    }

    /** TB_AddRels_Vistor::visit, on indices for which the loop stays inside the table. */
    method AddRels(table: seq<Rel>, start: int, end: int)
      requires Valid() && -TWO64 <= start && -TWO64 <= end && Slice(table, start, end).Some?
      modifies `rels, `relsValid
      ensures Valid() && rels == old(rels) + Slice(table, start, end).value
      ensures relsValid == old(relsValid) + seq(|Slice(table, start, end).value|, _ => true)
    {
      var startIndex, endIndex := U64(start), U64(end);
      var i := startIndex;
      while i <= endIndex
        invariant startIndex <= i && (startIndex <= endIndex ==> i <= endIndex + 1 <= |table|) && Valid()
        invariant startIndex <= endIndex ==> rels == old(rels) + table[startIndex..i]
        invariant startIndex > endIndex ==> i == startIndex && rels == old(rels)
        invariant relsValid == old(relsValid) + seq(i - startIndex, _ => true)
      {
        rels := rels + [table[i]];
        relsValid := relsValid + [true];
        i := i + 1;
      }
    }

    /** DisassmbleVistor::visit: appends the decoded words and lists the branches among them. */
    method Disassemble(words: seq<nat>, decode: nat -> Insn)
      requires Valid() && View().code == [] && bInsns == [] && bneInsns == [] && otherBInsns == []
      modifies `bInsns, `bneInsns, `otherBInsns, insns, insns.Repr
      ensures Valid() && View().code == seq(|words|, k requires 0 <= k < |words| => decode(words[k]))
      ensures BranchExact(View()) && fresh(insns.Repr - old(insns.Repr))
      ensures View().rels == old(View()).rels && View().live == old(View()).live
    {
      hide Positions;
      NothingListed();
      var i := 0;
      while i < |words|
        invariant 0 <= i <= |words| && Valid() && fresh(insns.Repr - old(insns.Repr))
        invariant View().code == seq(i, k requires 0 <= k < i => decode(words[k]))
        invariant BranchExact(View())
      {
        var res := decode(words[i]);
        ghost var code := View().code;
        PositionsLast(code, res, ClassB);
        PositionsLast(code, res, ClassBne);
        PositionsLast(code, res, ClassOther);
        AddBranchEntry(ClassOf(res.opc), i);
        insns.InsertAtTail(res);
        assert View().code == code + [res];
        i := i + 1;
      }
    }

    /** add_insn: refuses, as the original exits, when a live relocation covers the new index. */
    method AddInsn(prev: ListNode<Insn>, inserted: ListNode<Insn>, index: nat, ghost pos: nat) returns (ok: bool)
      requires Valid() && pos <= insns.size && prev == insns.chain[pos]
      requires inserted !in insns.Repr && inserted.data.Some?
      modifies `rels, `jmpTarget, `bInsns, `bneInsns, `otherBInsns, insns, insns.Repr, inserted
      ensures Valid() && ok == !Covered(old(View()), index + 1)
      ensures !ok ==> View() == old(View())
      ensures ok ==> View() == Inserted(old(View()), pos, index + 1, old(inserted.data.value))
    {
      hide RaiseAfter, RaiseRels, RaiseExits;
      var i := index + 1;
      for j := 0 to |rels|
        invariant forall k :: 0 <= k < j ==> !(relsValid[k] && Covers(rels[k], i))
      {
        if relsValid[j] && rels[j].tcOffset <= 4 * i < rels[j].tcOffset + 4 * rels[j].slots {
          assert View().live[j] && Covers(View().rels[j], i);
          return false;
        }
      }
      RaiseBranches(i);
      AddBranchEntry(ClassOf(inserted.data.value.opc), i);
      RaiseRelsAndExits(i);
      var _ := insns.InsertAfter(prev, inserted, pos);
      return true;
    }

    /** adjust_index_of_branchs_when_add_insn */
    method RaiseBranches(i: nat)
      modifies `bInsns, `bneInsns, `otherBInsns
      ensures bInsns == RaiseAfter(old(bInsns), i)
      ensures bneInsns == RaiseAfter(old(bneInsns), i)
      ensures otherBInsns == RaiseAfter(old(otherBInsns), i)
    {
      bInsns := RaiseEntries(bInsns, i);
      bneInsns := RaiseEntries(bneInsns, i);
      otherBInsns := RaiseEntries(otherBInsns, i);
    }

    method RaiseRelsAndExits(i: nat)
      requires |rels| == |relsValid| && |jmpReset| == 2 && |jmpTarget| == 2
      modifies `rels, `jmpTarget
      ensures |rels| == |relsValid| && |jmpTarget| == 2
      ensures rels == RaiseRels(old(rels), relsValid, i)
      ensures jmpTarget == RaiseExits(jmpReset, old(jmpTarget), i)
    {
      for j := 0 to |rels|
        invariant |rels| == |old(rels)| && jmpTarget == old(jmpTarget)
        invariant forall k :: 0 <= k < |rels| ==>
                    rels[k] == if k < j then RaiseRels(old(rels), relsValid, i)[k] else old(rels)[k]
      {
        if relsValid[j] && rels[j].tcOffset >= 4 * i {
          rels := rels[j := rels[j].(tcOffset := rels[j].tcOffset + 4)];
        }
      }
      for w := 0 to 2
        invariant |jmpTarget| == 2 && rels == RaiseRels(old(rels), relsValid, i)
        invariant forall k :: 0 <= k < 2 ==>
                    jmpTarget[k] == if k < w then RaiseExits(jmpReset, old(jmpTarget), i)[k] else old(jmpTarget)[k]
      {
        if jmpReset[w] != INVALID && jmpTarget[w] >= 4 * i {
          jmpTarget := jmpTarget[w := jmpTarget[w] + 4];
        }
      }
    }

    // ----- availability -----

    method HasEpilogueAt(q: nat) returns (res: bool)
      requires Valid()
      ensures res == EpilogueAt(View(), q)
    {
      for j := 0 to |rels|
        invariant forall k :: 0 <= k < j ==> !(rels[k].kind == B_EPILOGUE && rels[k].tcOffset / 4 == q)
      {
        if rels[j].kind == B_EPILOGUE && q == rels[j].tcOffset / 4 {
          assert View().rels[j].kind == B_EPILOGUE;
          return true;
        }
      }
      return false;
    }

    /** pipehole_opt_available */
    method PeepholeOptAvailable() returns (r: bool)
      requires Valid()
      ensures r == Available(View())
    {
      if jmpReset[0] != INVALID && jmpReset[1] != INVALID {
        if |bInsns| == 2 {
          return |bneInsns| == 1 && |otherBInsns| == 0
                 && bInsns[0] == jmpTarget[0] / 4 && bInsns[1] == jmpTarget[1] / 4;
        } else if |bInsns| == 4 {
          var e1 := HasEpilogueAt(bInsns[1]);
          if !e1 { return false; }
          var e3 := HasEpilogueAt(bInsns[3]);
          if !e3 { return false; }
          return |bneInsns| == 1 && |otherBInsns| == 0
                 && bInsns[0] == jmpTarget[0] / 4 && bInsns[2] == jmpTarget[1] / 4;
        } else {
          return false;
        }
      } else if jmpReset[0] != INVALID || jmpReset[1] != INVALID {
        var w := if jmpReset[0] != INVALID then 0 else 1;
        if |bInsns| == 1 {
          return |bneInsns| == 0 && |otherBInsns| == 0 && bInsns[0] == jmpTarget[w] / 4;
        } else if |bInsns| == 2 {
          var e := HasEpilogueAt(bInsns[1]);
          return e && |bneInsns| == 0 && |otherBInsns| == 0 && bInsns[0] == jmpTarget[w] / 4;
        } else {
          return false;
        }
      } else {
        return |bInsns| == 1 && |bneInsns| == 0 && |otherBInsns| == 0;
      }
    }
  }
}
