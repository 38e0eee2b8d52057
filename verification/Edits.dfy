/** Histories of peephole edits.  Every peephole pass is a sequence of two primitive
    edits, rewriting one instruction in place and deleting one instruction, none of
    which touches a branch, an exit or an instruction under a live relocation.  The
    lemmas here hold for every such history, so for any sequence of passes. */
module Edits {
  import opened Isa
  import opened Blocks

  datatype Edit = Set(p: nat, insn: Insn) | Del(p: nat)

  ghost predicate Ok(b: Block, e: Edit) {
    && Shaped(b) && Free(b, e.p, 1)
    && (e.Set? ==> ClassOf(e.insn.opc) == NotBranch)
  }

  function Overwrite(b: Block, p: nat, i: Insn): Block
    requires p < |b.code|
  {
    b.(code := b.code[p := i])
  }

  ghost function Apply(b: Block, e: Edit): Block
    requires Ok(b, e)
  {
    match e
    case Set(p, i) => Overwrite(b, p, i)
    case Del(p) => Cut(b, p, 1)
  }

  /** The history es leads from block b to block c, every edit being harmless where it is made. */
  ghost predicate Leads(b: Block, es: seq<Edit>, c: Block)
    decreases |es|
  {
    if es == [] then b == c
    else
      var n := |es| - 1;
      exists m :: Leads(b, es[..n], m) && Ok(m, es[n]) && Apply(m, es[n]) == c
  }

  /** Where the instruction at position q is after one edit, or after a history. */
  function Moved(e: Edit, q: nat): nat { if e.Set? then q else Clamp(q, e.p, 1) }

  function Track(es: seq<Edit>, q: nat): nat
    decreases |es|
  {
    if es == [] then q else Moved(es[|es| - 1], Track(es[..|es| - 1], q))
  }

  /** Which positions of the first block still hold their instruction, unchanged. */
  ghost predicate Untouched(es: seq<Edit>, q: nat)
    decreases |es|
  {
    es != [] ==> Untouched(es[..|es| - 1], q) && Track(es[..|es| - 1], q) != es[|es| - 1].p
  }

  /** Untouched instructions keep their order. */
  lemma {:induction false} TrackOrder(es: seq<Edit>, q: nat, t: nat)
    requires q < t && Untouched(es, q) && Untouched(es, t)
    ensures Track(es, q) < Track(es, t)
    decreases |es|
  {
    if es != [] { TrackOrder(es[..|es| - 1], q, t); }
  }

  lemma TrackAtMost(es: seq<Edit>, q: nat, t: nat)
    requires Untouched(es, q) && Untouched(es, t)
    ensures q <= t <==> Track(es, q) <= Track(es, t)
  {
    if q < t { TrackOrder(es, q, t); }
    if t < q { TrackOrder(es, t, q); }
  }

  lemma {:induction false} TrackNext(es: seq<Edit>, q: nat)
    requires Untouched(es, q) && Untouched(es, q + 1)
    ensures Track(es, q + 1) == Track(es, q) + 1
    decreases |es|
  {
    if es != [] { TrackNext(es[..|es| - 1], q); }
  }

  lemma LeadsStep(b: Block, es: seq<Edit>, m: Block, e: Edit)
    requires Leads(b, es, m) && Ok(m, e)
    ensures Leads(b, es + [e], Apply(m, e))
  {
    assert (es + [e])[..|es|] == es;
  }

  lemma {:induction false} LeadsAppend(b: Block, es: seq<Edit>, m: Block, fs: seq<Edit>, c: Block)
    requires Leads(b, es, m) && Leads(m, fs, c)
    ensures Leads(b, es + fs, c)
    decreases |fs|
  {
    hide Ok, Apply;
    if fs == [] {
      assert es + fs == es;
    } else {
      var n := |fs| - 1;
      var k :| Leads(m, fs[..n], k) && Ok(k, fs[n]) && Apply(k, fs[n]) == c;
      LeadsAppend(b, es, m, fs[..n], k);
      LeadsStep(b, es + fs[..n], k, fs[n]);
      assert es + fs[..n] + [fs[n]] == es + fs;
    }
  }

  lemma {:induction false} TrackAppend(es: seq<Edit>, fs: seq<Edit>, q: nat)
    ensures Track(es + fs, q) == Track(fs, Track(es, q))
    ensures Untouched(es + fs, q) <==> Untouched(es, q) && Untouched(fs, Track(es, q))
    decreases |fs|
  {
    if fs == [] {
      assert es + fs == es;
    } else {
      var n := |fs| - 1;
      assert (es + fs)[..|es + fs| - 1] == es + fs[..n];
      TrackAppend(es, fs[..n], q);
    }
  }

  // ----- histories that stay in front of something -----

  /** The history makes no edit to the last `last` instructions: they all move up alike. */
  ghost predicate LeadsInFront(b: Block, es: seq<Edit>, c: Block, last: nat) {
    && Leads(b, es, c) && last <= |c.code|
    && forall i :: |b.code| - last <= i < |b.code| && 0 <= i ==>
         Untouched(es, i) && Track(es, i) + |b.code| == i + |c.code|
  }

  lemma InFrontNone(b: Block, last: nat)
    requires last <= |b.code|
    ensures LeadsInFront(b, [], b, last)
  {
  }

  lemma InFrontStep(b: Block, es: seq<Edit>, m: Block, e: Edit, last: nat)
    requires LeadsInFront(b, es, m, last) && Ok(m, e) && e.p + last < |m.code|
    ensures LeadsInFront(b, es + [e], Apply(m, e), last)
  {
    hide Leads, Ok;
    LeadsStep(b, es, m, e);
    ApplySize(m, e);
    forall i | |b.code| - last <= i < |b.code| && 0 <= i
      ensures Untouched(es + [e], i) && Track(es + [e], i) + |b.code| == i + |Apply(m, e).code|
    {
      assert (es + [e])[..|es|] == es;
    }
  }

  lemma ApplySize(m: Block, e: Edit)
    requires Ok(m, e)
    ensures |Apply(m, e).code| == if e.Set? then |m.code| else |m.code| - 1
  {
  }

  lemma InFrontAppend(b: Block, es: seq<Edit>, m: Block, fs: seq<Edit>, c: Block, last: nat)
    requires LeadsInFront(b, es, m, last) && LeadsInFront(m, fs, c, last)
    ensures LeadsInFront(b, es + fs, c, last)
  {
    hide Leads;
    LeadsAppend(b, es, m, fs, c);
    forall i | |b.code| - last <= i < |b.code| && 0 <= i
      ensures Untouched(es + fs, i) && Track(es + fs, i) + |b.code| == i + |c.code|
    {
      TrackAppend(es, fs, i);
    }
  }

  // ----- one edit -----

  /** Overwriting a plain instruction with a plain one. */
  lemma PlainWf(b: Block, p: nat, i: Insn)
    requires Wf(b) && p < |b.code| && ClassOf(b.code[p].opc) == NotBranch == ClassOf(i.opc)
    ensures Wf(Overwrite(b, p, i))
  {
    hide RelFits, Apart;
    var code := b.code[p := i];
    SameClasses(b.code, code, ClassB, 0);
    SameClasses(b.code, code, ClassBne, 0);
    SameClasses(b.code, code, ClassOther, 0);
  }

  lemma ApplyWf(b: Block, e: Edit)
    requires Wf(b) && Ok(b, e)
    ensures Wf(Apply(b, e)) && Apply(b, e).live == b.live && Apply(b, e).reset == b.reset
  {
    match e
    case Set(p, i) => PlainWf(b, p, i);
    case Del(p) =>
      CutWf(b, p, 1);
      assert Cut(b, p, 1).live == b.live;
  }

  /** Every position a well-formed block refers to lies outside a harmless edit. */
  lemma ApplyInsn(b: Block, e: Edit, q: nat)
    requires Shaped(b) && Ok(b, e) && q < |b.code| && q != e.p
    ensures Moved(e, q) < |Apply(b, e).code| && Apply(b, e).code[Moved(e, q)] == b.code[q]
  {
  }

  lemma ApplyRel(b: Block, e: Edit, j: nat, k: nat)
    requires Wf(b) && Ok(b, e) && j < |b.rels| && b.live[j] && k < b.rels[j].slots
    ensures var r, r' := b.rels[j], Apply(b, e).rels[j];
            && r' == r.(tcOffset := r'.tcOffset)
            && r.tcOffset / 4 + k != e.p && r'.tcOffset / 4 + k == Moved(e, r.tcOffset / 4 + k)
  {
    assert RelFits(b.rels[j], |b.code|);
    assert !Overlaps(b.rels[j], e.p, 1);
  }

  lemma ApplyExit(b: Block, e: Edit, w: nat)
    requires Wf(b) && Ok(b, e) && w < 2 && ValidExit(b, w)
    ensures b.target[w] / 4 != e.p && Apply(b, e).target[w] / 4 == Moved(e, b.target[w] / 4)
  {
  }

  lemma {:induction false} PositionsMoved(code: seq<Insn>, d: BranchClass, base: nat, p: nat)
    requires base <= p < base + |code| && ClassOf(code[p - base].opc) == NotBranch && d != NotBranch
    ensures var s, s' := PositionsFrom(code, d, base), PositionsFrom(code[..p - base] + code[p - base + 1..], d, base);
            |s'| == |s| && forall k :: 0 <= k < |s| ==> s[k] != p && s'[k] == Clamp(s[k], p, 1)
  {
    var i := p - base;
    DropEntryFrom(code, p, d, base);
    PositionsSound(code, d, base);
    var s := PositionsFrom(code, d, base);
    assert forall k :: 0 <= k < |s| ==> s[k] in s;
  }

  lemma ApplyBranches(b: Block, e: Edit)
    requires Wf(b) && Ok(b, e)
    ensures var c := Apply(b, e);
            && |c.bs| == |b.bs| && |c.bnes| == |b.bnes| && |c.others| == |b.others|
            && (forall k :: 0 <= k < |b.bs| ==> b.bs[k] != e.p && c.bs[k] == Moved(e, b.bs[k]))
            && (forall k :: 0 <= k < |b.bnes| ==> b.bnes[k] != e.p && c.bnes[k] == Moved(e, b.bnes[k]))
            && (forall k :: 0 <= k < |b.others| ==> b.others[k] != e.p && c.others[k] == Moved(e, b.others[k]))
  {
    PositionsMoved(b.code, ClassB, 0, e.p);
    PositionsMoved(b.code, ClassBne, 0, e.p);
    PositionsMoved(b.code, ClassOther, 0, e.p);
  }

  // ----- whole histories -----

  lemma {:induction false} LeadsWf(b: Block, es: seq<Edit>, c: Block)
    requires Wf(b) && Leads(b, es, c)
    ensures Wf(c) && c.live == b.live && c.reset == b.reset && |c.rels| == |b.rels|
    decreases |es|
  {
    if es != [] {
      var n := |es| - 1;
      var m :| Leads(b, es[..n], m) && Ok(m, es[n]) && Apply(m, es[n]) == c;
      LeadsWf(b, es[..n], m);
      ApplyWf(m, es[n]);
    }
  }

  /** An untouched position is tracked to the same instruction. */
  lemma {:induction false} LeadsInsn(b: Block, es: seq<Edit>, c: Block, q: nat)
    requires Leads(b, es, c) && q < |b.code| && Untouched(es, q)
    ensures Track(es, q) < |c.code| && c.code[Track(es, q)] == b.code[q]
    decreases |es|
  {
    if es != [] {
      var n := |es| - 1;
      var m :| Leads(b, es[..n], m) && Ok(m, es[n]) && Apply(m, es[n]) == c;
      LeadsInsn(b, es[..n], m, q);
      ApplyInsn(m, es[n], Track(es[..n], q));
    }
  }

  /** No history of harmless edits drops a live relocation, and slot k of relocation j
      keeps covering the very instruction it covered at the start. */
  lemma {:induction false} LeadsRel(b: Block, es: seq<Edit>, c: Block, j: nat, k: nat)
    requires Wf(b) && Leads(b, es, c) && j < |b.rels| && b.live[j] && k < b.rels[j].slots
    ensures |c.rels| == |b.rels| && c.live == b.live
    ensures c.rels[j] == b.rels[j].(tcOffset := c.rels[j].tcOffset)
    ensures Untouched(es, b.rels[j].tcOffset / 4 + k)
    ensures c.rels[j].tcOffset / 4 + k == Track(es, b.rels[j].tcOffset / 4 + k)
    decreases |es|
  {
    if es != [] {
      var n := |es| - 1;
      var m :| Leads(b, es[..n], m) && Ok(m, es[n]) && Apply(m, es[n]) == c;
      LeadsWf(b, es[..n], m);
      LeadsRel(b, es[..n], m, j, k);
      ApplyWf(m, es[n]);
      ApplyRel(m, es[n], j, k);
    }
  }

  /** A valid exit keeps naming the same B. */
  lemma {:induction false} LeadsExit(b: Block, es: seq<Edit>, c: Block, w: nat)
    requires Wf(b) && Leads(b, es, c) && w < 2 && ValidExit(b, w)
    ensures Wf(c) && c.reset == b.reset
    ensures Untouched(es, b.target[w] / 4) && c.target[w] / 4 == Track(es, b.target[w] / 4)
    decreases |es|
  {
    LeadsWf(b, es, c);
    if es != [] {
      var n := |es| - 1;
      var m :| Leads(b, es[..n], m) && Ok(m, es[n]) && Apply(m, es[n]) == c;
      LeadsWf(b, es[..n], m);
      LeadsExit(b, es[..n], m, w);
      ApplyExit(m, es[n], w);
    }
  }

  /** The branch lists keep their entries, in order, each naming the same branch. */
  lemma {:induction false} LeadsBranches(b: Block, es: seq<Edit>, c: Block)
    requires Wf(b) && Leads(b, es, c)
    ensures |c.bs| == |b.bs| && |c.bnes| == |b.bnes| && |c.others| == |b.others|
    ensures forall k :: 0 <= k < |b.bs| ==> Untouched(es, b.bs[k]) && c.bs[k] == Track(es, b.bs[k])
    ensures forall k :: 0 <= k < |b.bnes| ==> Untouched(es, b.bnes[k]) && c.bnes[k] == Track(es, b.bnes[k])
    ensures forall k :: 0 <= k < |b.others| ==> Untouched(es, b.others[k]) && c.others[k] == Track(es, b.others[k])
    decreases |es|
  {
    if es != [] {
      var n := |es| - 1;
      var m :| Leads(b, es[..n], m) && Ok(m, es[n]) && Apply(m, es[n]) == c;
      LeadsWf(b, es[..n], m);
      LeadsBranches(b, es[..n], m);
      ApplyBranches(m, es[n]);
    }
  }

  /** The last slot of a live relocation stays on its side of an exit. */
  lemma EndsLater(b: Block, es: seq<Edit>, c: Block, j: nat, w: nat)
    requires Wf(b) && Leads(b, es, c) && w < 2 && ValidExit(b, w) && j < |b.rels| && b.live[j]
    ensures Wf(c) && c.live == b.live && |c.rels| == |b.rels| && ValidExit(c, w)
    ensures b.rels[j].tcOffset <= b.target[w] <==> c.rels[j].tcOffset <= c.target[w]
    ensures b.rels[j].tcOffset + 4 * b.rels[j].slots <= b.target[w] + 4 <==>
              c.rels[j].tcOffset + 4 * c.rels[j].slots <= c.target[w] + 4
  {
    hide Leads, RelsApart, Covered, BranchExact, Track;
    LeadsWf(b, es, c);
    LeadsExit(b, es, c, w);
    var end := b.target[w] / 4;
    assert RelFits(b.rels[j], |b.code|) && RelFits(c.rels[j], |c.code|) && ExitOk(b, w) && ExitOk(c, w);
    var first, last := b.rels[j].tcOffset / 4, b.rels[j].tcOffset / 4 + (b.rels[j].slots - 1);
    LeadsRel(b, es, c, j, 0);
    LeadsRel(b, es, c, j, b.rels[j].slots - 1);
    TrackAtMost(es, first, end);
    TrackAtMost(es, last, end);
  }

  // ----- a run of deletions -----

  function Dels(p: nat, n: nat): seq<Edit> { seq(n, i => Del(p)) }

  /** Cutting a free region is a history of single deletions. */
  lemma {:induction false} DelsInFront(b: Block, p: nat, n: nat, last: nat)
    requires Wf(b) && Free(b, p, n) && p + n + last <= |b.code|
    ensures LeadsInFront(b, Dels(p, n), Cut(b, p, n), last)
    decreases n
  {
    hide RelsFit, RelsApart, BranchExact, Cut, Overlaps;
    if n == 0 {
      CutNothing(b, p);
      InFrontNone(b, last);
    } else {
      FreePart(b, p, n);
      DelsInFront(b, p, n - 1, last);
      CutFreeLast(b, p, n - 1);
      CutCut(b, p, n - 1);
      InFrontStep(b, Dels(p, n - 1), Cut(b, p, n - 1), Del(p), last);
      assert Dels(p, n - 1) + [Del(p)] == Dels(p, n);
    }
  }

  lemma FreePart(b: Block, p: nat, n: nat)
    requires RefsOk(b) && Free(b, p, n) && n >= 1
    ensures Free(b, p, n - 1)
  {
    forall j | 0 <= j < |b.rels| && b.live[j]
      ensures !Overlaps(b.rels[j], p, n - 1)
    {
      assert !Overlaps(b.rels[j], p, n);
    }
  }

  lemma CutFreeLast(b: Block, p: nat, n: nat)
    requires RefsOk(b) && Free(b, p, n + 1)
    ensures Free(Cut(b, p, n), p, 1)
  {
    var c := Cut(b, p, n);
    forall j | 0 <= j < |c.rels| && c.live[j]
      ensures !Overlaps(c.rels[j], p, 1)
    {
      assert RefsOk(b) && RelFits(b.rels[j], |b.code|) && !Overlaps(b.rels[j], p, n + 1);
    }
  }

  // ----- availability -----

  /** An epilogue relocation that is live keeps marking the same B. */
  lemma EpilogueKept(b: Block, es: seq<Edit>, c: Block, k: nat)
    requires Wf(b) && Leads(b, es, c) && Shaped(c) && k < |b.bs| && EpilogueAt(b, b.bs[k])
    requires forall j :: 0 <= j < |b.rels| ==> b.live[j]
    ensures k < |c.bs| && EpilogueAt(c, c.bs[k])
  {
    hide Leads, RelsApart, BranchExact;
    LeadsBranches(b, es, c);
    var j :| 0 <= j < |b.rels| && b.rels[j].kind == B_EPILOGUE && b.rels[j].tcOffset / 4 == b.bs[k];
    assert RelFits(b.rels[j], |b.code|);
    LeadsRel(b, es, c, j, 0);
    assert c.rels[j].kind == B_EPILOGUE && c.rels[j].tcOffset / 4 == c.bs[k];
  }

  /** A block that was available for peephole optimisation, with all its relocations live,
      is still available after any history of peephole edits. */
  lemma LeadsAvailable(b: Block, es: seq<Edit>, c: Block)
    requires Wf(b) && Leads(b, es, c) && Available(b)
    requires forall j :: 0 <= j < |b.rels| ==> b.live[j]
    ensures Wf(c) && Available(c)
    ensures forall j :: 0 <= j < |c.rels| ==> c.live[j]
  {
    hide Leads, RelsFit, RelsApart, BranchExact;
    LeadsWf(b, es, c);
    LeadsBranches(b, es, c);
    if ValidExit(b, 0) { LeadsExit(b, es, c, 0); }
    if ValidExit(b, 1) { LeadsExit(b, es, c, 1); }
    forall k | 0 <= k < |b.bs| && EpilogueAt(b, b.bs[k])
      ensures EpilogueAt(c, c.bs[k])
    {
      EpilogueKept(b, es, c, k);
    }
  }
}
