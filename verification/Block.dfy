/** A translated block as a value: its instructions and everything that refers to them
    by position.  The class in Tb.dfy keeps these in mutable fields; the functions
    here say what its methods do to them. */
module Blocks {
  import opened Isa

  datatype RelKind =
    | B_PROLOGUE | B_EPILOGUE | B_NATIVE_JMP_GLUE2
    | LOAD_TB_ADDR | LOAD_RIP_OFF | LOAD_CALL_TARGET | OTHER_REL(code: nat)

  /** tcOffset is in bytes from the start of the block, slots in instructions. */
  datatype Rel = Rel(kind: RelKind, tcOffset: nat, slots: nat, ripOffset: nat, addend: nat)

  /** TB_JMP_RESET_OFFSET_INVALID */
  const INVALID: nat := 0xffff

  /** live[j] tells whether rels[j] still counts; bs, bnes and others are the branch index
      lists; reset and target are jmp_reset_offsets and jmp_target_arg, where index 0 is
      the false exit and index 1 the true exit. */
  datatype Block = Block(
    code: seq<Insn>, rels: seq<Rel>, live: seq<bool>,
    bs: seq<nat>, bnes: seq<nat>, others: seq<nat>,
    reset: seq<nat>, target: seq<nat>)

  predicate Shaped(b: Block) { |b.rels| == |b.live| && |b.reset| == 2 && |b.target| == 2 }

  predicate ValidExit(b: Block, w: nat)
    requires Shaped(b) && w < 2
  {
    b.reset[w] != INVALID
  }

  // ----- relocations -----

  predicate Covers(r: Rel, i: nat) { r.tcOffset <= 4 * i < r.tcOffset + 4 * r.slots }

  predicate Overlaps(r: Rel, p: nat, n: nat) {
    n > 0 && r.tcOffset < 4 * (p + n) && 4 * p < r.tcOffset + 4 * r.slots
  }

  predicate Apart(r: Rel, q: Rel) {
    r.tcOffset + 4 * r.slots <= q.tcOffset || q.tcOffset + 4 * q.slots <= r.tcOffset
  }

  ghost predicate RelFits(r: Rel, len: nat) {
    r.tcOffset % 4 == 0 && 1 <= r.slots && r.tcOffset + 4 * r.slots <= 4 * len
  }

  ghost predicate Covered(b: Block, i: nat)
    requires Shaped(b)
  {
    exists j :: 0 <= j < |b.rels| && b.live[j] && Covers(b.rels[j], i)
  }

  /** Live relocations lie on whole instructions inside the code. */
  ghost predicate RelsFit(rels: seq<Rel>, live: seq<bool>, len: nat)
    requires |rels| == |live|
  {
    forall j :: 0 <= j < |rels| && live[j] ==> RelFits(rels[j], len)
  }

  /** No two live relocations share an instruction. */
  ghost predicate RelsApart(rels: seq<Rel>, live: seq<bool>)
    requires |rels| == |live|
  {
    forall j, k :: 0 <= j < k < |rels| && live[j] && live[k] ==> Apart(rels[j], rels[k])
  }

  ghost predicate ExitsAligned(b: Block)
    requires Shaped(b)
  {
    forall w :: 0 <= w < 2 && ValidExit(b, w) ==> b.target[w] % 4 == 0
  }

  /** Live relocations and valid exits lie on whole instructions: all that deletion needs. */
  ghost predicate Aligned(b: Block) {
    Shaped(b) && ExitsAligned(b) && forall j :: 0 <= j < |b.rels| && b.live[j] ==> b.rels[j].tcOffset % 4 == 0
  }

  /** Relocations and exits are sound, and byte offsets fit their 32-bit fields. */
  ghost predicate RefsOk(b: Block) {
    && Shaped(b)
    && 4 * |b.code| < TWO32
    && RelsFit(b.rels, b.live, |b.code|)
    && RelsApart(b.rels, b.live)
    && ExitsAligned(b)
  }

  // ----- branch lists -----

  /** The positions of the instructions of one branch class, in order, when the code
      starts at position base. */
  function PositionsFrom(code: seq<Insn>, c: BranchClass, base: nat): seq<nat> {
    if code == [] then []
    else
      var rest := PositionsFrom(code[1..], c, base + 1);
      if ClassOf(code[0].opc) == c then [base] + rest else rest
  }

  function Positions(code: seq<Insn>, c: BranchClass): seq<nat> { PositionsFrom(code, c, 0) }

  ghost predicate BranchExact(b: Block) {
    && b.bs == Positions(b.code, ClassB)
    && b.bnes == Positions(b.code, ClassBne)
    && b.others == Positions(b.code, ClassOther)
  }

  function AllTrue(n: nat): seq<bool> { seq(n, _ => true) }

  /** The block that loading makes of code, relocations and exits: every relocation live and the
      branches listed. */
  function Loaded(code: seq<Insn>, rels: seq<Rel>, reset: seq<nat>, target: seq<nat>): Block {
    Block(code, rels, AllTrue(|rels|),
          Positions(code, ClassB), Positions(code, ClassBne), Positions(code, ClassOther), reset, target)
  }

  /** __erase_b_and_index: drops the first entry equal to i. */
  function EraseFirst(s: seq<nat>, i: nat): seq<nat> {
    if s == [] then [] else if s[0] == i then s[1..] else [s[0]] + EraseFirst(s[1..], i)
  }

  /** __adjust_index_of_branchs: entries after i move down by one. */
  function LowerAfter(s: seq<nat>, i: nat): seq<nat> {
    seq(|s|, k requires 0 <= k < |s| => if s[k] > i then s[k] - 1 else s[k])
  }

  /** What deleting an instruction with opcode class c at claimed index i does to the list of class d. */
  function DropEntry(s: seq<nat>, i: nat, c: BranchClass, d: BranchClass): seq<nat> {
    LowerAfter(if c == d then EraseFirst(s, i) else s, i)
  }

  // ----- exits -----

  /** Each valid exit names a B instruction. */
  predicate ExitOk(b: Block, w: nat)
    requires Shaped(b) && w < 2
  {
    ValidExit(b, w) ==>
      b.target[w] % 4 == 0 && b.target[w] / 4 < |b.code| && b.code[b.target[w] / 4].opc == B
  }

  ghost predicate Wf(b: Block) {
    RefsOk(b) && BranchExact(b) && ExitOk(b, 0) && ExitOk(b, 1)
  }

  lemma WfShaped(b: Block)
    requires Wf(b)
    ensures Shaped(b)
  {
  }

  lemma WfAligned(b: Block)
    requires Wf(b)
    ensures Aligned(b)
  {
    RefsAligned(b);
  }

  // ----- deletion -----

  /** Where position x ends up when the n positions from `at` on are deleted. */
  function Clamp(x: nat, at: nat, n: nat): nat {
    if x <= at then x else if x >= at + n then x - n else at
  }

  function Lowered(r: Rel, p: nat, n: nat): Rel { r.(tcOffset := Clamp(r.tcOffset, 4 * p, 4 * n)) }

  function LowerRels(rels: seq<Rel>, live: seq<bool>, p: nat, n: nat): seq<Rel>
    requires |rels| == |live|
  {
    seq(|rels|, j requires 0 <= j < |rels| => if live[j] then Lowered(rels[j], p, n) else rels[j])
  }

  function LowerExits(reset: seq<nat>, target: seq<nat>, p: nat, n: nat): seq<nat>
    requires |reset| == 2 && |target| == 2
  {
    seq(2, w requires 0 <= w < 2 => if reset[w] != INVALID then Clamp(target[w], 4 * p, 4 * n) else target[w])
  }

  /** One deletion as the methods perform it: the node at position pos goes, while i is the
      index that was passed for it and drives every adjustment. */
  function DropInsn(b: Block, pos: nat, i: nat): (r: Block)
    requires Shaped(b) && pos < |b.code|
    ensures Shaped(r)
  {
    var c := ClassOf(b.code[pos].opc);
    b.(code := b.code[..pos] + b.code[pos + 1..],
       rels := LowerRels(b.rels, b.live, i, 1),
       bs := DropEntry(b.bs, i, c, ClassB),
       bnes := DropEntry(b.bnes, i, c, ClassBne),
       others := DropEntry(b.others, i, c, ClassOther),
       target := LowerExits(b.reset, b.target, i, 1))
  }

  lemma RefsAligned(b: Block)
    requires RefsOk(b)
    ensures Aligned(b)
  {
    assert forall j :: 0 <= j < |b.rels| && b.live[j] ==> RelFits(b.rels[j], |b.code|);
  }

  lemma DropAligned(b: Block, pos: nat, i: nat)
    requires Aligned(b) && pos < |b.code|
    ensures Aligned(DropInsn(b, pos, i))
  {
    hide DropEntry;
  }

  /** Kills the relocations that cover position i. */
  function KillAt(b: Block, i: nat): (r: Block)
    requires Shaped(b)
    ensures Shaped(r)
  {
    b.(live := seq(|b.live|, j requires 0 <= j < |b.live| => b.live[j] && !Covers(b.rels[j], i)))
  }

  /** The n instructions from p on are gone: relocations that touch them are dead, every
      position behind them is n lower, and the branch lists fit the new code. */
  function Cut(b: Block, p: nat, n: nat): (r: Block)
    requires Shaped(b) && p + n <= |b.code|
    ensures Shaped(r) && |r.code| == |b.code| - n
  {
    var code := b.code[..p] + b.code[p + n..];
    Block(code,
          LowerRels(b.rels, b.live, p, n),
          seq(|b.live|, j requires 0 <= j < |b.live| => b.live[j] && !Overlaps(b.rels[j], p, n)),
          Positions(code, ClassB), Positions(code, ClassBne), Positions(code, ClassOther),
          b.reset,
          LowerExits(b.reset, b.target, p, n))
  }

  // ----- lemmas on branch lists -----

  lemma {:induction false} PositionsAppend(a: seq<Insn>, b: seq<Insn>, c: BranchClass, base: nat)
    ensures PositionsFrom(a + b, c, base) == PositionsFrom(a, c, base) + PositionsFrom(b, c, base + |a|)
  {
    if a == [] {
      assert a + b == b;
    } else {
      assert (a + b)[0] == a[0] && (a + b)[1..] == a[1..] + b;
      PositionsAppend(a[1..], b, c, base + 1);
    }
  }

  /** Position lists are sound and in order. */
  lemma {:induction false} PositionsSound(code: seq<Insn>, c: BranchClass, base: nat)
    ensures forall q :: q in PositionsFrom(code, c, base) ==>
              base <= q < base + |code| && ClassOf(code[q - base].opc) == c
    ensures forall j, k :: 0 <= j < k < |PositionsFrom(code, c, base)| ==>
              PositionsFrom(code, c, base)[j] < PositionsFrom(code, c, base)[k]
  {
    if code != [] {
      var t := PositionsFrom(code[1..], c, base + 1);
      PositionsSound(code[1..], c, base + 1);
      assert forall k :: 0 <= k < |t| ==> t[k] in t;
    }
  }

  /** Position lists are complete: together with PositionsSound they name
      exactly the instructions of the class. */
  lemma {:induction false} PositionsComplete(code: seq<Insn>, c: BranchClass, base: nat, i: nat)
    requires i < |code| && ClassOf(code[i].opc) == c
    ensures base + i in PositionsFrom(code, c, base)
  {
    if i > 0 {
      PositionsComplete(code[1..], c, base + 1, i - 1);
    }
  }

  lemma {:induction false} PositionsNone(code: seq<Insn>, c: BranchClass, base: nat)
    requires forall i :: 0 <= i < |code| ==> ClassOf(code[i].opc) != c
    ensures PositionsFrom(code, c, base) == []
  {
    if code != [] {
      PositionsNone(code[1..], c, base + 1);
    }
  }

  lemma OnlyOne(code: seq<Insn>, d: BranchClass, q: nat)
    requires q < |code| && ClassOf(code[q].opc) == d
    requires forall i :: 0 <= i < |code| && i != q ==> ClassOf(code[i].opc) != d
    ensures Positions(code, d) == [q]
  {
    var s := Positions(code, d);
    PositionsSound(code, d, 0);
    assert |s| > 1 ==> s[0] < s[1];
    PositionsComplete(code, d, 0, q);
    forall k | 0 <= k < |s|
      ensures s[k] == q
    {
      assert s[k] in PositionsFrom(code, d, 0);
    }
  }

  predicate Increasing(s: seq<nat>) { forall j, k :: 0 <= j < k < |s| ==> s[j] < s[k] }

  lemma {:induction false} SameIncreasing(s: seq<nat>, t: seq<nat>)
    requires Increasing(s) && Increasing(t) && forall q :: q in s <==> q in t
    ensures s == t
    decreases |s|
  {
    if s == [] {
      assert forall k :: 0 <= k < |t| ==> t[k] in s;
    } else {
      assert s[|s| - 1] in t;
      var m, n := |s| - 1, |t| - 1;
      LastIsLargest(s, t);
      LastIsLargest(t, s);
      var x, y := s[..m], t[..n];
      forall q
        ensures q in x <==> q in y
      {
        assert q in x <==> q in s && q != s[m] by { FrontOf(s, q); }
        assert q in y <==> q in t && q != t[n] by { FrontOf(t, q); }
      }
      SameIncreasing(x, y);
      assert s == x + [s[m]] && t == y + [t[n]];
    }
  }

  lemma LastIsLargest(s: seq<nat>, t: seq<nat>)
    requires Increasing(s) && Increasing(t) && s != [] && t != [] && forall q :: q in s <==> q in t
    ensures s[|s| - 1] <= t[|t| - 1]
  {
    assert s[|s| - 1] in t;
    var k :| 0 <= k < |t| && t[k] == s[|s| - 1];
    assert k < |t| - 1 ==> t[k] < t[|t| - 1];
  }

  lemma FrontOf(s: seq<nat>, q: nat)
    requires Increasing(s) && s != []
    ensures q in s[..|s| - 1] <==> q in s && q != s[|s| - 1]
  {
    if q in s && q != s[|s| - 1] {
      var k :| 0 <= k < |s| && s[k] == q;
      assert s[..|s| - 1][k] == q;
    }
  }

  /** A list is the position list of a class exactly if it is increasing and names the instructions of the
      class and nothing else. */
  lemma ListExactly(code: seq<Insn>, c: BranchClass, s: seq<nat>)
    ensures Positions(code, c) == s <==>
              && Increasing(s) && (forall q :: q in s ==> q < |code|)
              && forall i :: 0 <= i < |code| ==> (ClassOf(code[i].opc) == c <==> i in s)
  {
    var t := Positions(code, c);
    PositionsSound(code, c, 0);
    forall i | 0 <= i < |code| && ClassOf(code[i].opc) == c
      ensures i in t
    {
      PositionsComplete(code, c, 0, i);
    }
    if && Increasing(s) && (forall q :: q in s ==> q < |code|)
       && forall i :: 0 <= i < |code| ==> (ClassOf(code[i].opc) == c <==> i in s) {
      SameIncreasing(s, t);
    }
  }

  lemma LowerAppend(a: seq<nat>, b: seq<nat>, i: nat)
    ensures LowerAfter(a + b, i) == LowerAfter(a, i) + LowerAfter(b, i)
  {
  }

  lemma {:induction false} LowerPositions(code: seq<Insn>, d: BranchClass, base: nat, i: nat)
    requires i < base
    ensures LowerAfter(PositionsFrom(code, d, base), i) == PositionsFrom(code, d, base - 1)
  {
    if code != [] {
      LowerPositions(code[1..], d, base + 1, i);
      LowerAppend([base], PositionsFrom(code[1..], d, base + 1), i);
    }
  }

  lemma {:induction false} DropEntryFrom(code: seq<Insn>, i: nat, d: BranchClass, base: nat)
    requires base <= i < base + |code|
    ensures DropEntry(PositionsFrom(code, d, base), i, ClassOf(code[i - base].opc), d)
         == PositionsFrom(code[..i - base] + code[i - base + 1..], d, base)
  {
    if i == base {
      assert code[..0] + code[1..] == code[1..];
      LowerPositions(code[1..], d, base + 1, i);
    } else {
      var rest := code[..i - base] + code[i - base + 1..];
      assert rest[0] == code[0] && rest[1..] == code[1..][..i - base - 1] + code[1..][i - base..];
      DropEntryFrom(code[1..], i, d, base + 1);
      var t := PositionsFrom(code[1..], d, base + 1);
      if ClassOf(code[0].opc) == d {
        LowerAppend([base], t, i);
        LowerAppend([base], EraseFirst(t, i), i);
        assert ([base] + t)[1..] == t;
      }
    }
  }

  /** The in-place list edit of one deletion turns the exact list of the old code into the
      exact list of the new code, provided the index passed is the true position. */
  lemma DropEntryExact(code: seq<Insn>, i: nat, d: BranchClass)
    requires i < |code|
    ensures DropEntry(Positions(code, d), i, ClassOf(code[i].opc), d) == Positions(code[..i] + code[i + 1..], d)
  {
    DropEntryFrom(code, i, d, 0);
  }

  // ----- lemmas on deletion -----

  /** delete_ith_insn_alongwith_rel, given the true position, is a cut of length one. */
  lemma DropIsCut(b: Block, i: nat)
    requires RefsOk(b) && BranchExact(b) && i < |b.code|
    ensures DropInsn(KillAt(b, i), i, i) == Cut(b, i, 1)
  {
    DropEntryExact(b.code, i, ClassB);
    DropEntryExact(b.code, i, ClassBne);
    DropEntryExact(b.code, i, ClassOther);
    var d, c := DropInsn(KillAt(b, i), i, i), Cut(b, i, 1);
    assert d.live == c.live;
    assert d.rels == c.rels;
    assert d.target == c.target;
  }

  lemma CutNothing(b: Block, p: nat)
    requires Shaped(b) && BranchExact(b) && p <= |b.code|
    ensures Cut(b, p, 0) == b
  {
    assert b.code[..p] + b.code[p + 0..] == b.code;
    assert Cut(b, p, 0).rels == b.rels && Cut(b, p, 0).live == b.live && Cut(b, p, 0).target == b.target;
  }

  /** Deleting n instructions at p and then the one that moved up to p deletes n + 1. */
  lemma CutCut(b: Block, p: nat, n: nat)
    requires RefsOk(b) && p + n < |b.code|
    ensures Cut(Cut(b, p, n), p, 1) == Cut(b, p, n + 1)
  {
    var c, d := Cut(b, p, n), Cut(b, p, n + 1);
    var e := Cut(c, p, 1);
    assert c.code[..p] + c.code[p + 1..] == d.code;
    assert e.live == d.live;
    assert e.rels == d.rels;
    assert e.target == d.target;
  }

  lemma LoweredFits(r: Rel, p: nat, n: nat, len: nat)
    requires RelFits(r, len) && p + n <= len && !Overlaps(r, p, n)
    ensures RelFits(Lowered(r, p, n), len - n)
  {
  }

  lemma LoweredApart(r: Rel, q: Rel, p: nat, n: nat, len: nat)
    requires RelFits(r, len) && RelFits(q, len) && p + n <= len && !Overlaps(r, p, n) && !Overlaps(q, p, n)
    requires Apart(r, q)
    ensures Apart(Lowered(r, p, n), Lowered(q, p, n))
  {
  }

  lemma CutFits(b: Block, p: nat, n: nat)
    requires RefsOk(b) && p + n <= |b.code|
    ensures RelsFit(Cut(b, p, n).rels, Cut(b, p, n).live, |b.code| - n)
  {
    var c := Cut(b, p, n);
    forall j | 0 <= j < |c.rels| && c.live[j]
      ensures RelFits(c.rels[j], |c.code|)
    {
      LoweredFits(b.rels[j], p, n, |b.code|);
    }
  }

  lemma CutApart(b: Block, p: nat, n: nat)
    requires RefsOk(b) && p + n <= |b.code|
    ensures RelsApart(Cut(b, p, n).rels, Cut(b, p, n).live)
  {
    var c := Cut(b, p, n);
    forall j, k | 0 <= j < k < |c.rels| && c.live[j] && c.live[k]
      ensures Apart(c.rels[j], c.rels[k])
    {
      LoweredApart(b.rels[j], b.rels[k], p, n, |b.code|);
    }
  }

  lemma CutAligned(b: Block, p: nat, n: nat)
    requires Shaped(b) && ExitsAligned(b) && p + n <= |b.code|
    ensures ExitsAligned(Cut(b, p, n))
  {
    forall w | 0 <= w < 2 && ValidExit(b, w)
      ensures Cut(b, p, n).target[w] % 4 == 0
    {
    }
  }

  lemma CutRefs(b: Block, p: nat, n: nat)
    requires RefsOk(b) && p + n <= |b.code|
    ensures RefsOk(Cut(b, p, n))
  {
    CutFits(b, p, n);
    CutApart(b, p, n);
    CutAligned(b, p, n);
  }

  /** Deletion keeps a block well formed as long as no valid exit branch is deleted. */
  lemma CutWf(b: Block, p: nat, n: nat)
    requires Wf(b) && p + n <= |b.code|
    requires forall w :: 0 <= w < 2 && ValidExit(b, w) ==> !(p <= b.target[w] / 4 < p + n)
    ensures Wf(Cut(b, p, n))
  {
    CutRefs(b, p, n);
  }

  /** Where position q outside the deleted range ends up, and that it holds the same instruction. */
  lemma CutNames(b: Block, p: nat, n: nat, q: nat)
    requires Shaped(b) && p + n <= |b.code| && q < |b.code| && !(p <= q < p + n)
    ensures Clamp(q, p, n) < |Cut(b, p, n).code| && Cut(b, p, n).code[Clamp(q, p, n)] == b.code[q]
  {
  }

  /** A relocation that survives covers the same instructions as before, slot by slot. */
  lemma CutRelNames(b: Block, p: nat, n: nat, j: nat, k: nat)
    requires RefsOk(b) && p + n <= |b.code|
    requires j < |b.rels| && Cut(b, p, n).live[j] && k < b.rels[j].slots
    ensures var r, r' := b.rels[j], Cut(b, p, n).rels[j];
            && b.live[j] && r' == r.(tcOffset := r'.tcOffset)
            && r'.tcOffset / 4 + k == Clamp(r.tcOffset / 4 + k, p, n) < |Cut(b, p, n).code|
            && Cut(b, p, n).code[r'.tcOffset / 4 + k] == b.code[r.tcOffset / 4 + k]
  {
  }

  // ----- deletion inside a region nothing refers to -----

  ghost predicate Free(b: Block, lo: nat, n: nat)
    requires Shaped(b)
  {
    && lo + n <= |b.code|
    && (forall q :: lo <= q < lo + n ==> ClassOf(b.code[q].opc) == NotBranch)
    && (forall j :: 0 <= j < |b.rels| && b.live[j] ==> !Overlaps(b.rels[j], lo, n))
    && (forall w :: 0 <= w < 2 && ValidExit(b, w) ==> !(lo <= b.target[w] / 4 < lo + n))
  }

  lemma LowerNear(code: seq<Insn>, d: BranchClass, i: nat, pos: nat)
    requires i <= pos < |code| && d != NotBranch
    requires forall q :: i <= q <= pos ==> ClassOf(code[q].opc) == NotBranch
    ensures LowerAfter(Positions(code, d), i) == LowerAfter(Positions(code, d), pos)
  {
    var s := Positions(code, d);
    PositionsSound(code, d, 0);
    assert forall k :: 0 <= k < |s| ==> s[k] in s;
  }

  /** Inside a free region a deletion comes out right even when the index passed for it is
      too small, as long as that index is still inside the region. */
  lemma DropNear(b: Block, lo: nat, n: nat, pos: nat, i: nat)
    requires RefsOk(b) && BranchExact(b) && Free(b, lo, n)
    requires lo <= i <= pos < lo + n
    ensures DropInsn(b, pos, i) == Cut(b, pos, 1)
    ensures !Covered(b, i)
  {
    LowerNear(b.code, ClassB, i, pos);
    LowerNear(b.code, ClassBne, i, pos);
    LowerNear(b.code, ClassOther, i, pos);
    DropEntryExact(b.code, pos, ClassB);
    DropEntryExact(b.code, pos, ClassBne);
    DropEntryExact(b.code, pos, ClassOther);
    var d, c := DropInsn(b, pos, i), Cut(b, pos, 1);
    assert d.live == c.live;
    assert d.rels == c.rels;
    assert d.target == c.target;
  }

  // ----- rewriting instructions in place -----

  lemma {:induction false} SameClasses(x: seq<Insn>, y: seq<Insn>, d: BranchClass, base: nat)
    requires |x| == |y| && forall k :: 0 <= k < |x| ==> ClassOf(x[k].opc) == ClassOf(y[k].opc)
    ensures PositionsFrom(x, d, base) == PositionsFrom(y, d, base)
  {
    if x != [] {
      SameClasses(x[1..], y[1..], d, base + 1);
    }
  }

  // ----- insertion -----

  function RaiseRels(rels: seq<Rel>, live: seq<bool>, i: nat): seq<Rel>
    requires |rels| == |live|
  {
    seq(|rels|, j requires 0 <= j < |rels| =>
      if live[j] && rels[j].tcOffset >= 4 * i then rels[j].(tcOffset := rels[j].tcOffset + 4) else rels[j])
  }

  function RaiseExits(reset: seq<nat>, target: seq<nat>, i: nat): seq<nat>
    requires |reset| == 2 && |target| == 2
  {
    seq(2, w requires 0 <= w < 2 => if reset[w] != INVALID && target[w] >= 4 * i then target[w] + 4 else target[w])
  }

  /** __adjust_index_of_branchs_add: entries after i, but not an entry at i, move up by one. */
  function RaiseAfter(s: seq<nat>, i: nat): seq<nat> {
    seq(|s|, k requires 0 <= k < |s| => if s[k] > i then s[k] + 1 else s[k])
  }

  function AddEntry(s: seq<nat>, i: nat, c: BranchClass, d: BranchClass): seq<nat> {
    RaiseAfter(s, i) + (if c == d then [i] else [])
  }

  /** add_insn: instruction x goes in at position pos, index i drives the adjustments. */
  function Inserted(b: Block, pos: nat, i: nat, x: Insn): (r: Block)
    requires Shaped(b) && pos <= |b.code|
    ensures Shaped(r)
  {
    var c := ClassOf(x.opc);
    b.(code := b.code[..pos] + [x] + b.code[pos..],
       rels := RaiseRels(b.rels, b.live, i),
       bs := AddEntry(b.bs, i, c, ClassB),
       bnes := AddEntry(b.bnes, i, c, ClassBne),
       others := AddEntry(b.others, i, c, ClassOther),
       target := RaiseExits(b.reset, b.target, i))
  }

  /** No branch sits where the new instruction goes. */
  predicate NoBranchAt(b: Block, i: nat) { i < |b.code| ==> ClassOf(b.code[i].opc) == NotBranch }

  lemma {:induction false} RaisePositions(code: seq<Insn>, d: BranchClass, base: nat, i: nat)
    requires i < base
    ensures RaiseAfter(PositionsFrom(code, d, base), i) == PositionsFrom(code, d, base + 1)
  {
    if code != [] {
      RaisePositions(code[1..], d, base + 1, i);
      RaiseAppend([base], PositionsFrom(code[1..], d, base + 1), i);
      assert RaiseAfter([base], i) == [base + 1];
    }
  }

  lemma RaiseBelow(s: seq<nat>, i: nat)
    requires forall k :: 0 <= k < |s| ==> s[k] < i
    ensures RaiseAfter(s, i) == s
  {
  }

  lemma RaiseAppend(a: seq<nat>, b: seq<nat>, i: nat)
    ensures RaiseAfter(a + b, i) == RaiseAfter(a, i) + RaiseAfter(b, i)
  {
  }

  /** Where no branch sits at position i, raising the list behind i makes room for one more. */
  lemma RaiseExact(code: seq<Insn>, d: BranchClass, i: nat)
    requires i <= |code| && (i < |code| ==> ClassOf(code[i].opc) != d)
    ensures RaiseAfter(Positions(code, d), i) == Positions(code[..i], d) + PositionsFrom(code[i..], d, i + 1)
  {
    var a, z := code[..i], code[i..];
    assert code == a + z;
    PositionsAppend(a, z, d, 0);
    PositionsSound(a, d, 0);
    var pa := Positions(a, d);
    assert forall k :: 0 <= k < |pa| ==> pa[k] in pa;
    RaiseBelow(pa, i);
    RaiseAppend(pa, PositionsFrom(z, d, i), i);
    if z != [] {
      RaisePositions(z[1..], d, i + 1, i);
    }
  }

  lemma SplitInserted(code: seq<Insn>, d: BranchClass, i: nat, x: Insn)
    requires i <= |code|
    ensures Positions(code[..i] + [x] + code[i..], d)
         == Positions(code[..i], d) + (if ClassOf(x.opc) == d then [i] else []) + PositionsFrom(code[i..], d, i + 1)
  {
    PositionsAppend(code[..i] + [x], code[i..], d, 0);
    PositionsAppend(code[..i], [x], d, 0);
    assert [x][1..] == [];
  }

  /** After inserting, a branch list still names exactly the branches of its class if and only
      if the instruction that was at the insertion point is not one of them: the adjuster
      leaves such an entry behind, one short. */
  lemma InsertedListExact(code: seq<Insn>, d: BranchClass, i: nat, x: Insn)
    requires i <= |code| && d != NotBranch
    ensures (forall q :: q in AddEntry(Positions(code, d), i, ClassOf(x.opc), d) <==>
               q in Positions(code[..i] + [x] + code[i..], d))
        <==> (i < |code| ==> ClassOf(code[i].opc) != d)
  {
    var longer := code[..i] + [x] + code[i..];
    var l := AddEntry(Positions(code, d), i, ClassOf(x.opc), d);
    SplitInserted(code, d, i, x);
    if i < |code| && ClassOf(code[i].opc) == d {
      PositionsComplete(longer, d, 0, i + 1);
      var s := Positions(code, d);
      assert i + 1 !in l by {
        assert forall k :: 0 <= k < |s| ==> RaiseAfter(s, i)[k] != i + 1;
      }
    } else {
      RaiseExact(code, d, i);
    }
  }

  lemma InsertedOrder(code: seq<Insn>, d: BranchClass, i: nat, x: Insn)
    requires i <= |code| && ClassOf(x.opc) != d && (i < |code| ==> ClassOf(code[i].opc) != d)
    ensures AddEntry(Positions(code, d), i, ClassOf(x.opc), d) == Positions(code[..i] + [x] + code[i..], d)
  {
    SplitInserted(code, d, i, x);
    RaiseExact(code, d, i);
  }

  ghost predicate ListsExact(b: Block) {
    && (forall q :: q in b.bs <==> q in Positions(b.code, ClassB))
    && (forall q :: q in b.bnes <==> q in Positions(b.code, ClassBne))
    && (forall q :: q in b.others <==> q in Positions(b.code, ClassOther))
  }

  /** add_insn keeps the branch lists naming exactly the branches if and only if no branch sits
      at the insertion point; an inserted plain instruction then keeps them in order too. */
  lemma InsertExact(b: Block, i: nat, x: Insn)
    requires Wf(b) && i <= |b.code|
    ensures ListsExact(Inserted(b, i, i, x)) <==> NoBranchAt(b, i)
    ensures NoBranchAt(b, i) && ClassOf(x.opc) == NotBranch ==> BranchExact(Inserted(b, i, i, x))
  {
    InsertedListExact(b.code, ClassB, i, x);
    InsertedListExact(b.code, ClassBne, i, x);
    InsertedListExact(b.code, ClassOther, i, x);
    if NoBranchAt(b, i) && ClassOf(x.opc) == NotBranch {
      InsertedOrder(b.code, ClassB, i, x);
      InsertedOrder(b.code, ClassBne, i, x);
      InsertedOrder(b.code, ClassOther, i, x);
    }
  }

  lemma {:induction false} EraseLast(s: seq<nat>, i: nat)
    requires i !in s
    ensures EraseFirst(s + [i], i) == s
  {
    if s != [] {
      assert (s + [i])[0] == s[0] && (s + [i])[1..] == s[1..] + [i];
      EraseLast(s[1..], i);
    }
  }

  lemma {:induction false} EraseAt(s: seq<nat>, i: nat, e: nat)
    requires e < |s| && s[e] == i && forall k :: 0 <= k < e ==> s[k] != i
    ensures EraseFirst(s, i) == s[..e] + s[e + 1..]
  {
    if e > 0 {
      EraseAt(s[1..], i, e - 1);
      assert [s[0]] + s[1..][..e - 1] == s[..e];
    }
  }

  /** Raising a list behind i and lowering it again restores it. */
  lemma RaiseLower(s: seq<nat>, i: nat)
    ensures LowerAfter(RaiseAfter(s, i), i) == s
  {
  }

  lemma DropPresent(s: seq<nat>, i: nat, e: nat)
    requires Increasing(s) && e < |s| && s[e] == i
    ensures LowerAfter(EraseFirst(RaiseAfter(s, i) + [i], i), i) == s[..e] + (s[e + 1..] + [i])
  {
    var r := RaiseAfter(s, i);
    assert forall k :: 0 <= k < e ==> s[k] < s[e];
    EraseAt(r + [i], i, e);
    var t := r[..e] + (r[e + 1..] + [i]);
    assert (r + [i])[..e] + (r + [i])[e + 1..] == t;
    var u := s[..e] + (s[e + 1..] + [i]);
    forall k | 0 <= k < |s|
      ensures LowerAfter(t, i)[k] == u[k]
    {
      if k < e {
        assert t[k] == s[k] == u[k];
      } else if k < |s| - 1 {
        assert s[e] < s[k + 1] && t[k] == r[k + 1] == s[k + 1] + 1 && u[k] == s[k + 1];
      } else {
        assert t[k] == i == u[k];
      }
    }
  }

  lemma Rotated(s: seq<nat>, e: nat)
    requires Increasing(s) && e < |s|
    ensures s[..e] + (s[e + 1..] + [s[e]]) == s <==> e == |s| - 1
  {
    var t := s[..e] + (s[e + 1..] + [s[e]]);
    if e < |s| - 1 {
      assert t[e] == s[e + 1] && s[e] < s[e + 1];
    }
  }

  /** Adding an entry for class c at i and dropping it again, on the list of class d: the list is restored
      unless it had an entry i of its own, not the last, which is then dropped in its stead. */
  lemma DropAdded(s: seq<nat>, i: nat, c: BranchClass, d: BranchClass)
    requires Increasing(s)
    ensures DropEntry(AddEntry(s, i, c, d), i, c, d) == s <==> !(c == d && i in s && s[|s| - 1] != i)
  {
    hide LowerAfter, EraseFirst;
    var r := RaiseAfter(s, i);
    RaiseLower(s, i);
    if c != d {
      assert r + [] == r;
    } else if i !in s {
      assert forall k :: 0 <= k < |s| ==> s[k] in s && r[k] != i;
      EraseLast(r, i);
    } else {
      var e :| 0 <= e < |s| && s[e] == i;
      DropPresent(s, i, e);
      Rotated(s, e);
      assert s[e] != s[|s| - 1] <==> e != |s| - 1;
    }
  }

  /** A branch of the given class sits at position i, and another one behind it. */
  ghost predicate BranchesFrom(code: seq<Insn>, c: BranchClass, i: nat) {
    && c != NotBranch && i < |code| && ClassOf(code[i].opc) == c
    && exists q :: i < q < |code| && ClassOf(code[q].opc) == c
  }

  lemma LastListed(code: seq<Insn>, d: BranchClass, q: nat)
    requires q < |code| && ClassOf(code[q].opc) == d != NotBranch
    ensures var s := Positions(code, d); q in s && q <= s[|s| - 1]
  {
    var s := Positions(code, d);
    PositionsSound(code, d, 0);
    PositionsComplete(code, d, 0, q);
    var k :| 0 <= k < |s| && s[k] == q;
    assert k < |s| - 1 ==> s[k] < s[|s| - 1];
  }

  lemma ListRestored(code: seq<Insn>, i: nat, c: BranchClass, d: BranchClass)
    requires d != NotBranch
    ensures DropEntry(AddEntry(Positions(code, d), i, c, d), i, c, d) == Positions(code, d) <==>
              !(c == d && BranchesFrom(code, d, i))
  {
    hide DropEntry, AddEntry;
    var s := Positions(code, d);
    PositionsSound(code, d, 0);
    DropAdded(s, i, c, d);
    assert s != [] ==> s[|s| - 1] in s;
    if i < |code| && ClassOf(code[i].opc) == d {
      LastListed(code, d, i);
      forall q | i < q < |code| && ClassOf(code[q].opc) == d
        ensures q <= s[|s| - 1]
      {
        LastListed(code, d, q);
      }
    }
  }

  /** Inserting an instruction and deleting it again restores everything, except that a branch put in
      front of one of its own class, which is not the last of them, takes that one's entry along. */
  lemma InsertThenDelete(b: Block, i: nat, x: Insn)
    requires Wf(b) && i <= |b.code|
    ensures DropInsn(Inserted(b, i, i, x), i, i) == b <==> !BranchesFrom(b.code, ClassOf(x.opc), i)
  {
    var c := ClassOf(x.opc);
    var d := DropInsn(Inserted(b, i, i, x), i, i);
    ListRestored(b.code, i, c, ClassB);
    ListRestored(b.code, i, c, ClassBne);
    ListRestored(b.code, i, c, ClassOther);
    assert d.code == b.code;
    assert d.rels == b.rels;
    assert d.target == b.target;
  }

  /** What add_insn does to relocations: they keep covering the same instructions. */
  lemma InsertRelNames(b: Block, i: nat, x: Insn, j: nat, k: nat)
    requires Wf(b) && i <= |b.code| && !Covered(b, i) && j < |b.rels| && b.live[j] && k < b.rels[j].slots
    ensures var r, r' := b.rels[j], Inserted(b, i, i, x).rels[j];
            && r'.tcOffset / 4 + k < |b.code| + 1
            && Inserted(b, i, i, x).code[r'.tcOffset / 4 + k] == b.code[r.tcOffset / 4 + k]
  {
    assert RelFits(b.rels[j], |b.code|);
    assert !Covers(b.rels[j], i);
  }

  /** And valid exits keep naming theirs. */
  lemma InsertExitNames(b: Block, i: nat, x: Insn, w: nat)
    requires Wf(b) && i <= |b.code| && w < 2 && ValidExit(b, w)
    ensures var e, e' := b.target[w] / 4, Inserted(b, i, i, x).target[w] / 4;
            e < |b.code| && e' < |b.code| + 1 && Inserted(b, i, i, x).code[e'] == b.code[e]
  {
    assert ExitOk(b, w);
  }

  // ----- availability for peephole optimisation -----

  predicate EpilogueAt(b: Block, q: nat) {
    exists j :: 0 <= j < |b.rels| && b.rels[j].kind == B_EPILOGUE && b.rels[j].tcOffset / 4 == q
  }

  /** pipehole_opt_available: the branches are one BNE if both exits are valid, the exits
      themselves, each optionally followed by a B that is an epilogue relocation. */
  predicate Available(b: Block)
    requires Shaped(b)
  {
    if ValidExit(b, 0) && ValidExit(b, 1) then
      if |b.bs| == 2 then
        |b.bnes| == 1 && |b.others| == 0 && b.bs[0] == b.target[0] / 4 && b.bs[1] == b.target[1] / 4
      else if |b.bs| == 4 then
        && EpilogueAt(b, b.bs[1]) && EpilogueAt(b, b.bs[3])
        && |b.bnes| == 1 && |b.others| == 0 && b.bs[0] == b.target[0] / 4 && b.bs[2] == b.target[1] / 4
      else false
    else if ValidExit(b, 0) || ValidExit(b, 1) then
      var w := if ValidExit(b, 0) then 0 else 1;
      if |b.bs| == 1 then
        |b.bnes| == 0 && |b.others| == 0 && b.bs[0] == b.target[w] / 4
      else if |b.bs| == 2 then
        EpilogueAt(b, b.bs[1]) && |b.bnes| == 0 && |b.others| == 0 && b.bs[0] == b.target[w] / 4
      else false
    else
      |b.bs| == 1 && |b.bnes| == 0 && |b.others| == 0
  }

  // ----- what availability means -----

  /** B stands exactly at the given positions, and no branch but B and BNE anywhere. */
  ghost predicate BsAt(code: seq<Insn>, s: seq<nat>) {
    && (forall q :: q in s ==> q < |code|)
    && forall i :: 0 <= i < |code| ==>
         && (code[i].opc == B <==> i in s)
         && code[i].opc !in {BEQZ, BNEZ, BCEQZ, BCNEZ, JIRL, BL, BEQ, BLT, BGE, BLTU, BGEU}
  }

  ghost predicate NoBne(code: seq<Insn>) { forall i :: 0 <= i < |code| ==> code[i].opc != BNE }

  ghost predicate OneBne(code: seq<Insn>) {
    exists q :: 0 <= q < |code| && code[q].opc == BNE && forall i :: 0 <= i < |code| && i != q ==> code[i].opc != BNE
  }

  lemma ClassesAre(o: Opc)
    ensures ClassOf(o) == ClassB <==> o == B
    ensures ClassOf(o) == ClassBne <==> o == BNE
    ensures ClassOf(o) == ClassOther <==> o in {BEQZ, BNEZ, BCEQZ, BCNEZ, JIRL, BL, BEQ, BLT, BGE, BLTU, BGEU}
  {
  }

  lemma BsListed(code: seq<Insn>, s: seq<nat>)
    requires Increasing(s)
    ensures Positions(code, ClassB) == s && Positions(code, ClassOther) == [] <==> BsAt(code, s)
  {
    hide Positions, ClassOf;
    ListExactly(code, ClassB, s);
    ListExactly(code, ClassOther, []);
    forall i | 0 <= i < |code|
      ensures ClassOf(code[i].opc) == ClassB <==> code[i].opc == B
      ensures ClassOf(code[i].opc) == ClassOther <==>
                code[i].opc in {BEQZ, BNEZ, BCEQZ, BCNEZ, JIRL, BL, BEQ, BLT, BGE, BLTU, BGEU}
    {
      ClassesAre(code[i].opc);
    }
  }

  lemma NoBneListed(code: seq<Insn>)
    ensures Positions(code, ClassBne) == [] <==> NoBne(code)
  {
    hide Positions, ClassOf;
    ListExactly(code, ClassBne, []);
    forall i | 0 <= i < |code|
      ensures ClassOf(code[i].opc) == ClassBne <==> code[i].opc == BNE
    {
      ClassesAre(code[i].opc);
    }
  }

  lemma OneBneListed(code: seq<Insn>)
    ensures |Positions(code, ClassBne)| == 1 <==> OneBne(code)
  {
    hide Positions, ClassOf;
    var s := Positions(code, ClassBne);
    forall i | 0 <= i < |code|
      ensures ClassOf(code[i].opc) == ClassBne <==> code[i].opc == BNE
    {
      ClassesAre(code[i].opc);
    }
    if |s| == 1 {
      var q := s[0];
      assert s == [q] && q in s;
      ListExactly(code, ClassBne, s);
      assert code[q].opc == BNE && forall i :: 0 <= i < |code| && i != q ==> code[i].opc != BNE;
    }
    if OneBne(code) {
      var q :| 0 <= q < |code| && code[q].opc == BNE && forall i :: 0 <= i < |code| && i != q ==> code[i].opc != BNE;
      ListExactly(code, ClassBne, [q]);
    }
  }

  /** With both exits valid a block is available iff it holds one BNE and no other branch than Bs, and these
      are the false exit before the true one, or each of the two and one B behind it that has an epilogue
      relocation. */
  lemma AvailableBoth(b: Block)
    requires Wf(b) && b.reset[0] != 0xffff && b.reset[1] != 0xffff
    ensures var x, y := b.target[0] / 4, b.target[1] / 4;
            Available(b) <==>
              && OneBne(b.code) && x < y
              && (|| BsAt(b.code, [x, y])
                  || exists p: nat, q: nat ::
                       && x < p < y < q && BsAt(b.code, [x, p, y, q])
                       && (exists j :: 0 <= j < |b.rels| && b.rels[j].kind == B_EPILOGUE && b.rels[j].tcOffset / 4 == p)
                       && exists k :: 0 <= k < |b.rels| && b.rels[k].kind == B_EPILOGUE && b.rels[k].tcOffset / 4 == q)
  {
    hide BsAt, OneBne, PositionsFrom, ClassOf;
    var x, y := b.target[0] / 4, b.target[1] / 4;
    OneBneListed(b.code);
    PositionsSound(b.code, ClassB, 0);
    BsListed(b.code, b.bs);
    if x < y {
      BsListed(b.code, [x, y]);
    }
    forall p: nat, q: nat | x < p < y < q
      ensures BsAt(b.code, [x, p, y, q]) <==> b.bs == [x, p, y, q] && b.others == []
    {
      BsListed(b.code, [x, p, y, q]);
    }
    if |b.bs| == 2 {
      assert b.bs == [b.bs[0], b.bs[1]];
    } else if |b.bs| == 4 {
      assert b.bs == [b.bs[0], b.bs[1], b.bs[2], b.bs[3]];
    }
  }

  /** With one valid exit: no BNE, and the B is that exit, or that exit and one B behind it that has an
      epilogue relocation. */
  lemma AvailableOne(b: Block, w: nat)
    requires Wf(b) && w < 2 && b.reset[w] != 0xffff && b.reset[1 - w] == 0xffff
    ensures var x := b.target[w] / 4;
            Available(b) <==>
              && NoBne(b.code)
              && (|| BsAt(b.code, [x])
                  || exists p: nat ::
                       && x < p && BsAt(b.code, [x, p])
                       && exists j :: 0 <= j < |b.rels| && b.rels[j].kind == B_EPILOGUE && b.rels[j].tcOffset / 4 == p)
  {
    hide BsAt, NoBne, PositionsFrom, ClassOf;
    var x := b.target[w] / 4;
    NoBneListed(b.code);
    PositionsSound(b.code, ClassB, 0);
    BsListed(b.code, b.bs);
    BsListed(b.code, [x]);
    forall p: nat | x < p
      ensures BsAt(b.code, [x, p]) <==> b.bs == [x, p] && b.others == []
    {
      BsListed(b.code, [x, p]);
    }
    if |b.bs| == 1 {
      assert b.bs == [b.bs[0]];
    } else if |b.bs| == 2 {
      assert b.bs == [b.bs[0], b.bs[1]];
    }
  }

  /** Without a valid exit: one B, wherever it stands, and no other branch. */
  lemma AvailableNone(b: Block)
    requires Wf(b) && b.reset[0] == 0xffff && b.reset[1] == 0xffff
    ensures Available(b) <==> NoBne(b.code) && exists p: nat :: BsAt(b.code, [p])
  {
    hide BsAt, NoBne, PositionsFrom, ClassOf;
    NoBneListed(b.code);
    PositionsSound(b.code, ClassB, 0);
    BsListed(b.code, b.bs);
    forall p: nat
      ensures BsAt(b.code, [p]) <==> b.bs == [p] && b.others == []
    {
      BsListed(b.code, [p]);
    }
    if |b.bs| == 1 {
      assert b.bs == [b.bs[0]];
    }
  }
}
