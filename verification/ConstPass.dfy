/** Constant rematerialisation on a block: what the visitors leave of it, relocations and all, and when
    that is reached by harmless edits. */
module ConstPasses {
  import opened Isa
  import opened Blocks
  import opened LinkLists
  import opened Edits
  import opened SlotViews
  import opened Peephole
  import opened ConstFold

  // ----- what the visitors do -----

  /** substitue_with_addi_insn: of the n instructions at p the first becomes v, the others are deleted,
      along with every relocation on them. */
  function Rebuilt(b: Block, p: nat, n: nat, v: Insn): (r: Block)
    requires Shaped(b) && 1 <= n && p + n <= |b.code|
    ensures Shaped(r) && |r.code| == |b.code| - (n - 1)
  {
    Overwrite(Cut(b, p + 1, n - 1), p, v)
  }

  /** A relocation survives that exactly if it covers none of the deleted instructions. */
  lemma RebuiltRels(b: Block, p: nat, n: nat, v: Insn, j: nat)
    requires Shaped(b) && RelsFit(b.rels, b.live, |b.code|) && 1 <= n && p + n <= |b.code| && j < |b.rels|
    ensures Rebuilt(b, p, n, v).live[j] <==>
              b.live[j] && forall q :: p < q < p + n ==>
                             4 * q < b.rels[j].tcOffset || b.rels[j].tcOffset + 4 * b.rels[j].slots <= 4 * q
  {
    var r := b.rels[j];
    if b.live[j] && Overlaps(r, p + 1, n - 1) {
      assert RelFits(r, |b.code|);
      var q := if r.tcOffset / 4 <= p then p + 1 else r.tcOffset / 4;
      assert p < q < p + n && r.tcOffset <= 4 * q < r.tcOffset + 4 * r.slots;
    }
  }

  /** The visitor from position p on, in the inner loop with constants K or in the outer loop. */
  ghost function AfterPass(g: Shape, b: Block, p: nat, K: Consts, inner: bool): (r: Block)
    requires Shaped(b) && p <= |b.code|
    ensures Shaped(r)
    decreases |b.code| - p
  {
    var s := Slots(b)[p..];
    if s == [] then b
    else if Takes(g, s, inner) then
      var c, d := Value(g, s), s[0].insn.dst;
      var src := if inner then Source(K, c, 1) else None;
      if src.Some? then
        AfterPass(g, Rebuilt(b, p, g.Len(), AddiInsn(d, src.value, c - K[src.value])), p + 1, Record(K, d, c), true)
      else AfterPass(g, b, p + g.Len(), Record(K, d, c), true)
    else if StopsPass(s[0].insn.opc) then b
    else
      var K' := Killed(K, s[0].insn.dst, inner);
      AfterPass(g, b, p + 1, K', inner && K' != map[])
  }

  /** One step of it, by cases. */
  lemma StepTake(g: Shape, b: Block, p: nat, K: Consts, inner: bool)
    requires Shaped(b) && p < |b.code| && Takes(g, Slots(b)[p..], inner)
    ensures p + g.Len() <= |b.code| && GroupAt(g, Slots(b)[p..]) && 2 <= g.Len()
    ensures var c, d := Value(g, Slots(b)[p..]), b.code[p].dst;
            var src := if inner then Source(K, c, 1) else None;
            AfterPass(g, b, p, K, inner) ==
              if src.Some? then
                AfterPass(g, Rebuilt(b, p, g.Len(), AddiInsn(d, src.value, c - K[src.value])), p + 1, Record(K, d, c),
                          true)
              else AfterPass(g, b, p + g.Len(), Record(K, d, c), true)
  {
    hide Takes, GroupAt, Value, Source, Rebuilt, Record;
    TakesGroup(g, Slots(b)[p..], inner);
    LenAtMost(g, Slots(b)[p..]);
    assert Slots(b)[p..][0] == Slots(b)[p];
  }

  lemma StepSkip(g: Shape, b: Block, p: nat, K: Consts, inner: bool)
    requires Shaped(b) && p < |b.code| && !Takes(g, Slots(b)[p..], inner) && !StopsPass(b.code[p].opc)
    ensures var K' := Killed(K, b.code[p].dst, inner);
            AfterPass(g, b, p, K, inner) == AfterPass(g, b, p + 1, K', inner && K' != map[])
  {
    hide Takes;
    assert Slots(b)[p..][0] == Slots(b)[p];
  }

  lemma StepStop(g: Shape, b: Block, p: nat, K: Consts, inner: bool)
    requires Shaped(b) && p <= |b.code|
    requires p == |b.code| || StopsPass(b.code[p].opc)
    ensures AfterPass(g, b, p, K, inner) == b
  {
    if p < |b.code| { assert Slots(b)[p..][0] == Slots(b)[p]; }
  }

  // ----- the code it leaves -----

  /** The same instructions and, for the pass that looks at relocations, the same marks. */
  predicate Like(g: Shape, s: seq<Slot>, t: seq<Slot>) {
    |s| == |t| && (forall i :: 0 <= i < |s| ==> s[i].insn == t[i].insn) && (g.LuOri? ==> s == t)
  }

  lemma LikeTakes(g: Shape, s: seq<Slot>, t: seq<Slot>, inner: bool)
    requires Like(g, s, t)
    ensures Takes(g, s, inner) == Takes(g, t, inner)
    ensures GroupAt(g, s) ==> GroupAt(g, t) && Value(g, s) == Value(g, t)
  {
  }

  lemma LikeParts(g: Shape, s: seq<Slot>, t: seq<Slot>, n: nat)
    requires Like(g, s, t) && n <= |s|
    ensures Like(g, s[..n], t[..n]) && Like(g, s[n..], t[n..])
  {
  }

  lemma LikeJoin(g: Shape, a: seq<Slot>, b: seq<Slot>, a': seq<Slot>, b': seq<Slot>)
    requires Like(g, a, a') && Like(g, b, b')
    ensures Like(g, a + b, a' + b')
  {
  }

  /** What the pass does to the code of a slot sequence depends on no more than that. */
  lemma {:induction false} PassLike(g: Shape, s: seq<Slot>, t: seq<Slot>, K: Consts, inner: bool)
    requires Like(g, s, t)
    ensures Like(g, Pass(g, s, K, inner), Pass(g, t, K, inner))
    decreases |s|
  {
    hide Takes, GroupAt, Value, Source, Like, Replacement;
    LikeOpen(g, s, t);
    LikeTakes(g, s, t, inner);
    if s == [] {
    } else if Takes(g, s, inner) {
      TakesGroup(g, s, inner);
      LenAtMost(g, s);
      var K' := Record(K, s[0].insn.dst, Value(g, s));
      LikeParts(g, s, t, g.Len());
      PassLike(g, s[g.Len()..], t[g.Len()..], K', true);
      ReplacedLike(g, s, t, K, inner);
      LikeJoin(g, Replacement(g, s, K, inner), Pass(g, s[g.Len()..], K', true),
               Replacement(g, t, K, inner), Pass(g, t[g.Len()..], K', true));
    } else if !StopsPass(s[0].insn.opc) {
      var K' := Killed(K, s[0].insn.dst, inner);
      LikeParts(g, s, t, 1);
      PassLike(g, s[1..], t[1..], K', inner && K' != map[]);
      assert s[..1] == [s[0]] && t[..1] == [t[0]];
      LikeJoin(g, [s[0]], Pass(g, s[1..], K', inner && K' != map[]), [t[0]], Pass(g, t[1..], K', inner && K' != map[]));
    }
  }

  lemma LikeOpen(g: Shape, s: seq<Slot>, t: seq<Slot>)
    requires Like(g, s, t)
    ensures |s| == |t| && (s != [] ==> s[0].insn == t[0].insn)
  {
  }

  lemma TakesGroup(g: Shape, s: seq<Slot>, inner: bool)
    requires Takes(g, s, inner)
    ensures GroupAt(g, s)
  {
  }

  lemma ReplacedLike(g: Shape, s: seq<Slot>, t: seq<Slot>, K: Consts, inner: bool)
    requires Like(g, s, t) && GroupAt(g, s) && GroupAt(g, t)
    ensures Like(g, Replacement(g, s, K, inner), Replacement(g, t, K, inner))
  {
    LikeTakes(g, s, t, inner);
  }

  lemma GroupPlain(g: Shape, b: Block, p: nat)
    requires Shaped(b) && p <= |b.code| && GroupAt(g, Slots(b)[p..])
    ensures p + g.Len() <= |b.code| && forall q :: p <= q < p + g.Len() ==> ClassOf(b.code[q].opc) == NotBranch
  {
    forall q | p <= q < p + g.Len()
      ensures ClassOf(b.code[q].opc) == NotBranch
    {
      assert Slots(b)[q] == Slots(b)[p..][q - p];
    }
  }

  /** Shortening a group of plain instructions keeps a block well formed, whatever relocations die. */
  lemma RebuiltWf(b: Block, p: nat, n: nat, v: Insn)
    requires Wf(b) && 1 <= n && p + n <= |b.code| && ClassOf(v.opc) == NotBranch
    requires forall q :: p <= q < p + n ==> ClassOf(b.code[q].opc) == NotBranch
    ensures Shaped(b) && Wf(Rebuilt(b, p, n, v))
  {
    hide RelsFit, RelsApart, BranchExact;
    assert ExitOk(b, 0) && ExitOk(b, 1);
    CutWf(b, p + 1, n - 1);
    PlainWf(Cut(b, p + 1, n - 1), p, v);
  }

  lemma RebuiltLike(g: Shape, b: Block, p: nat, n: nat, v: Insn)
    requires Wf(b) && 1 <= n && p + n <= |b.code| && (g.LuOri? ==> Editable(Slots(b), p, n))
    ensures Shaped(b)
    ensures var s, t := Slots(b), Slots(Rebuilt(b, p, n, v));
            Like(g, t[..p + 1], s[..p] + [Slot(v, false)]) && Like(g, t[p + 1..], s[p + n..])
  {
    hide *;
    WfShaped(b);
    var s, t := Slots(b), Slots(Rebuilt(b, p, n, v));
    if g.LuOri? {
      RebuiltSlots(b, p, n, v);
      LikeSlots(g, s, t, p, n, Slot(v, false));
    } else {
      RebuiltCode(b, p, n, v);
      LikeCode(g, s, t, p, n, Slot(v, false));
    }
  }

  lemma LikeSlots(g: Shape, s: seq<Slot>, t: seq<Slot>, p: nat, n: nat, x: Slot)
    requires p + n <= |s| && t == s[..p] + [x] + s[p + n..]
    ensures Like(g, t[..p + 1], s[..p] + [x]) && Like(g, t[p + 1..], s[p + n..])
  {
    assert t[..p + 1] == s[..p] + [x] && t[p + 1..] == s[p + n..];
  }

  lemma LikeCode(g: Shape, s: seq<Slot>, t: seq<Slot>, p: nat, n: nat, x: Slot)
    requires !g.LuOri? && 1 <= n && p + n <= |s| && |t| == |s| - (n - 1)
    requires forall i {:trigger t[i]} :: 0 <= i < |t| ==>
               t[i].insn == if i < p then s[i].insn else if i == p then x.insn else s[i + n - 1].insn
    ensures Like(g, t[..p + 1], s[..p] + [x]) && Like(g, t[p + 1..], s[p + n..])
  {
    var y, z := s[p + n..], t[p + 1..];
    forall i | 0 <= i < |z|
      ensures z[i].insn == y[i].insn
    {
      assert z[i] == t[p + 1 + i] && y[i] == s[p + n + i];
    }
    var u, w := s[..p] + [x], t[..p + 1];
    forall i | 0 <= i < |w|
      ensures w[i].insn == u[i].insn
    {
      assert w[i] == t[i];
    }
  }

  lemma RebuiltCode(b: Block, p: nat, n: nat, v: Insn)
    requires Shaped(b) && 1 <= n && p + n <= |b.code|
    ensures var s, t := Slots(b), Slots(Rebuilt(b, p, n, v));
            && |t| == |s| - (n - 1)
            && forall i {:trigger t[i]} :: 0 <= i < |t| ==>
                 t[i].insn == if i < p then s[i].insn else if i == p then v else s[i + n - 1].insn
  {
    hide Covered, Positions, LowerRels, LowerExits;
  }

  lemma RebuiltSlots(b: Block, p: nat, n: nat, v: Insn)
    requires Wf(b) && 1 <= n && Editable(Slots(b), p, n)
    ensures p + n <= |b.code| && Shaped(b)
    ensures Slots(Rebuilt(b, p, n, v)) == Slots(b)[..p] + [Slot(v, false)] + Slots(b)[p + n..]
  {
    hide RelsFit, RelsApart, ExitsAligned, BranchExact, Cut, Free;
    FreeSlots(b, p + 1, n - 1);
    FreeCut(b, p + 1, n - 1);
    SlotsSet(Cut(b, p + 1, n - 1), p, v);
  }

  lemma LikeTrans(g: Shape, s: seq<Slot>, t: seq<Slot>, u: seq<Slot>)
    requires Like(g, s, t) && Like(g, t, u)
    ensures Like(g, s, u)
  {
  }

  lemma LikeSelf(g: Shape, s: seq<Slot>)
    ensures Like(g, s, s)
  {
  }

  lemma GroupNotStop(g: Shape, s: seq<Slot>, p: nat, inner: bool)
    requires p < |s| && StopsPass(s[p].insn.opc)
    ensures !Takes(g, s[p..], inner) && s[p..] != [] && s[p..][0] == s[p]
  {
  }

  lemma GroupEditable(g: Shape, s: seq<Slot>, p: nat)
    requires p <= |s| && GroupAt(g, s[p..]) && !Pinned(g, s[p..])
    ensures Editable(s, p, g.Len()) && 2 <= g.Len()
  {
    var n := g.Len();
    forall q | p <= q < p + n ensures ClassOf(s[q].insn.opc) == NotBranch && !s[q].pinned {
      assert s[q] == s[p..][q - p];
    }
  }

  /** A group that is shortened, with what the pass makes of the rest. */
  lemma CodeShort(g: Shape, b: Block, p: nat, K: Consts, src: Reg, c: Block)
    requires Wf(b) && Shaped(b) && Shaped(c) && p < |b.code| && Takes(g, Slots(b)[p..], true)
    requires GroupAt(g, Slots(b)[p..]) && p + g.Len() <= |b.code|
    requires Source(K, Value(g, Slots(b)[p..]), 1) == Some(src)
    requires var v := AddiInsn(b.code[p].dst, src, Value(g, Slots(b)[p..]) - K[src]);
             var t := Slots(Rebuilt(b, p, g.Len(), v));
             Like(g, Slots(c),
                  t[..p + 1] + Pass(g, t[p + 1..], Record(K, b.code[p].dst, Value(g, Slots(b)[p..])), true))
    ensures Like(g, Slots(c), Slots(b)[..p] + Pass(g, Slots(b)[p..], K, true))
  {
    hide Wf, Takes, GroupAt, Value, Source, Like, Rebuilt, Pass, Record, Replacement;
    var s := Slots(b);
    var u, v, n := s[p..], AddiInsn(b.code[p].dst, src, Value(g, s[p..]) - K[src]), g.Len();
    var t, K' := Slots(Rebuilt(b, p, n, v)), Record(K, b.code[p].dst, Value(g, u));
    ShortEditable(g, s, p);
    RebuiltLike(g, b, p, n, v);
    SliceAt(s, p, n);
    PassLike(g, t[p + 1..], s[p + n..], K', true);
    LikeJoin(g, t[..p + 1], Pass(g, t[p + 1..], K', true), s[..p] + [Slot(v, false)], Pass(g, s[p + n..], K', true));
    PassTake(g, u, K, true);
    ReplacementIs(g, u, K, true);
    Assoc(s[..p], [Slot(v, false)], Pass(g, s[p + n..], K', true));
    LikeTrans(g, Slots(c), t[..p + 1] + Pass(g, t[p + 1..], K', true),
              s[..p] + [Slot(v, false)] + Pass(g, s[p + n..], K', true));
  }

  lemma ShortEditable(g: Shape, s: seq<Slot>, p: nat)
    requires p < |s| && Takes(g, s[p..], true)
    ensures g.Len() >= 2 && (g.LuOri? ==> Editable(s, p, g.Len()))
  {
    if g.LuOri? { GroupEditable(g, s, p); }
  }

  /** A group that stays. */
  lemma CodeLong(g: Shape, s: seq<Slot>, p: nat, K: Consts, inner: bool)
    requires p < |s| && Takes(g, s[p..], inner) && GroupAt(g, s[p..]) && p + g.Len() <= |s|
    requires inner ==> Source(K, Value(g, s[p..]), 1).None?
    ensures s[..p] + Pass(g, s[p..], K, inner)
         == s[..p + g.Len()] + Pass(g, s[p + g.Len()..], Record(K, s[p].insn.dst, Value(g, s[p..])), true)
  {
    hide Takes, GroupAt, Value, Source, Pass, Record, Replacement;
    SliceAt(s, p, g.Len());
    PassTake(g, s[p..], K, inner);
    ReplacementIs(g, s[p..], K, inner);
    assert s[..p] + s[p..][..g.Len()] == s[..p + g.Len()];
    Assoc(s[..p], s[p..][..g.Len()], Pass(g, s[p + g.Len()..], Record(K, s[p].insn.dst, Value(g, s[p..])), true));
  }

  lemma CodeSkip(g: Shape, s: seq<Slot>, p: nat, K: Consts, inner: bool)
    requires p < |s| && !Takes(g, s[p..], inner) && !StopsPass(s[p].insn.opc)
    ensures var K' := Killed(K, s[p].insn.dst, inner);
            s[..p] + Pass(g, s[p..], K, inner) == s[..p + 1] + Pass(g, s[p + 1..], K', inner && K' != map[])
  {
    hide Takes, Pass;
    var K' := Killed(K, s[p].insn.dst, inner);
    SliceAt(s, p, 1);
    PassSkip(g, s[p..], K, inner);
    assert s[..p] + [s[p]] == s[..p + 1];
    Assoc(s[..p], [s[p]], Pass(g, s[p + 1..], K', inner && K' != map[]));
  }

  /** Whatever is relocated, the visitor leaves a well-formed block with the code that the pass function
      says; the two-instruction pass also leaves the marks that it says. */
  lemma {:induction false} AnyCode(g: Shape, b: Block, p: nat, K: Consts, inner: bool)
    requires Wf(b) && p <= |b.code|
    ensures Shaped(b) && Wf(AfterPass(g, b, p, K, inner))
    ensures Like(g, Slots(AfterPass(g, b, p, K, inner)), Slots(b)[..p] + Pass(g, Slots(b)[p..], K, inner))
    decreases |b.code| - p
  {
    hide RelsFit, RelsApart, ExitsAligned, BranchExact, ExitOk, AfterPass, Takes, GroupAt, Value, Source, Like, Rebuilt,
         Pass, Record;
    var s := Slots(b);
    if p == |s| || StopsPass(s[p].insn.opc) {
      StepStop(g, b, p, K, inner);
      if p < |s| { GroupNotStop(g, s, p, inner); }
      PassStop(g, s[p..], K, inner);
      SplitAt(s, p);
      LikeSelf(g, s);
    } else if Takes(g, s[p..], inner) {
      StepTake(g, b, p, K, inner);
      GroupPlain(g, b, p);
      var c, K' := Value(g, s[p..]), Record(K, s[p].insn.dst, Value(g, s[p..]));
      var src := if inner then Source(K, c, 1) else None;
      if src.Some? {
        var v := AddiInsn(b.code[p].dst, src.value, c - K[src.value]);
        RebuiltWf(b, p, g.Len(), v);
        AnyCode(g, Rebuilt(b, p, g.Len(), v), p + 1, K', true);
        CodeShort(g, b, p, K, src.value, AfterPass(g, b, p, K, inner));
      } else {
        AnyCode(g, b, p + g.Len(), K', true);
        CodeLong(g, s, p, K, inner);
      }
    } else {
      StepSkip(g, b, p, K, inner);
      var K' := Killed(K, s[p].insn.dst, inner);
      AnyCode(g, b, p + 1, K', inner && K' != map[]);
      CodeSkip(g, s, p, K, inner);
    }
  }

  // ----- without relocated groups -----

  lemma RebuiltLeads(b: Block, p: nat, n: nat, v: Insn, b0: Block, es: seq<Edit>, last: nat) returns (es': seq<Edit>)
    requires Wf(b) && LeadsInFront(b0, es, b, last) && 1 <= n && Editable(Slots(b), p, n) && ClassOf(v.opc) == NotBranch
    requires p + n + last <= |b.code|
    ensures Shaped(b) && LeadsInFront(b0, es', Rebuilt(b, p, n, v), last)
  {
    hide RelsFit, RelsApart, ExitsAligned, BranchExact, ExitOk, Cut, Free, LeadsInFront;
    FreeSlots(b, p + 1, n - 1);
    DelsInFront(b, p + 1, n - 1, last);
    InFrontAppend(b0, es, b, Dels(p + 1, n - 1), Cut(b, p + 1, n - 1), last);
    FreeCut(b, p + 1, n - 1);
    var c := Cut(b, p + 1, n - 1);
    FreeOne(c, p);
    InFrontStep(b0, es + Dels(p + 1, n - 1), c, Set(p, v), last);
    es' := es + Dels(p + 1, n - 1) + [Set(p, v)];
  }

  lemma FreeShort(g: Shape, b: Block, p: nat, K: Consts, src: Reg)
    requires Wf(b) && Shaped(b) && p < |b.code| && Takes(g, Slots(b)[p..], true)
    requires Unrelocated(g, Slots(b)[p..], K, true)
    requires GroupAt(g, Slots(b)[p..]) && p + g.Len() <= |b.code| && Source(K, Value(g, Slots(b)[p..]), 1) == Some(src)
    ensures 2 <= g.Len() && Editable(Slots(b), p, g.Len())
    ensures var v := AddiInsn(b.code[p].dst, src, Value(g, Slots(b)[p..]) - K[src]);
            var t, K' := Slots(Rebuilt(b, p, g.Len(), v)), Record(K, b.code[p].dst, Value(g, Slots(b)[p..]));
            && ClassOf(v.opc) == NotBranch && Unrelocated(g, t[p + 1..], K', true)
            && t[..p + 1] + Pass(g, t[p + 1..], K', true) == Slots(b)[..p] + Pass(g, Slots(b)[p..], K, true)
  {
    hide Wf, Takes, GroupAt, Value, Source, Rebuilt, Pass, Record, Replacement, Unrelocated, Editable, Pinned;
    var s := Slots(b);
    var u, v, n := s[p..], AddiInsn(b.code[p].dst, src, Value(g, s[p..]) - K[src]), g.Len();
    var t, K' := Slots(Rebuilt(b, p, n, v)), Record(K, b.code[p].dst, Value(g, u));
    SliceAt(s, p, n);
    PassTake(g, u, K, true);
    GroupEditable(g, s, p);
    RebuiltSlots(b, p, n, v);
    assert t[..p + 1] == s[..p] + [Slot(v, false)] && t[p + 1..] == s[p + n..];
    ReplacementIs(g, u, K, true);
    Assoc(s[..p], [Slot(v, false)], Pass(g, s[p + n..], K', true));
  }

  lemma RebuiltStop(b: Block, p: nat, n: nat, v: Insn, last: nat)
    requires Wf(b) && Shaped(b) && 1 <= n && Editable(Slots(b), p, n) && StopAt(Slots(b), last)
    requires p + n + last <= |b.code|
    ensures StopAt(Slots(Rebuilt(b, p, n, v)), last)
  {
    hide Wf, StopAt, Rebuilt, Editable;
    RebuiltSlots(b, p, n, v);
    StopKept(Slots(b), last, p, n, [Slot(v, false)]);
  }

  /** A group that is replaced. */
  lemma FreeTake(g: Shape, b: Block, p: nat, K: Consts, src: Reg, b0: Block, es: seq<Edit>, last: nat)
    returns (es': seq<Edit>)
    requires Wf(b) && Shaped(b) && p < |b.code| && Takes(g, Slots(b)[p..], true) && LeadsInFront(b0, es, b, last)
    requires Unrelocated(g, Slots(b)[p..], K, true) && StopAt(Slots(b), last)
    requires GroupAt(g, Slots(b)[p..]) && p + g.Len() + last <= |b.code|
    requires Source(K, Value(g, Slots(b)[p..]), 1) == Some(src)
    requires forall q :: p <= q < p + g.Len() ==> ClassOf(b.code[q].opc) == NotBranch
    ensures 2 <= g.Len() && src in K
    ensures var v := AddiInsn(b.code[p].dst, src, Value(g, Slots(b)[p..]) - K[src]);
            var c, K' := Rebuilt(b, p, g.Len(), v), Record(K, b.code[p].dst, Value(g, Slots(b)[p..]));
            && Wf(c) && Shaped(c) && |c.code| == |b.code| - (g.Len() - 1)
            && LeadsInFront(b0, es', c, last) && StopAt(Slots(c), last) && Unrelocated(g, Slots(c)[p + 1..], K', true)
            && Slots(c)[..p + 1] + Pass(g, Slots(c)[p + 1..], K', true)
                 == Slots(b)[..p] + Pass(g, Slots(b)[p..], K, true)
  {
    hide Wf, LeadsInFront, Takes, GroupAt, Value, Source, Rebuilt, Pass, Record, Unrelocated, Editable, StopAt, Slots,
         AddiInsn;
    var v := AddiInsn(b.code[p].dst, src, Value(g, Slots(b)[p..]) - K[src]);
    FreeShort(g, b, p, K, src);
    RebuiltWf(b, p, g.Len(), v);
    RebuiltStop(b, p, g.Len(), v, last);
    es' := RebuiltLeads(b, p, g.Len(), v, b0, es, last);
  }

  lemma GroupInFront(b: Block, p: nat, n: nat, last: nat)
    requires Shaped(b) && StopAt(Slots(b), last) && p + last <= |b.code| && p + n <= |b.code|
    requires forall q :: p <= q < p + n ==> ClassOf(b.code[q].opc) == NotBranch
    ensures p + n + last <= |b.code|
  {
    StopBehind(Slots(b), last, p, n);
  }

  /** A group that stays. */
  lemma FreeLong(g: Shape, b: Block, p: nat, K: Consts, inner: bool, last: nat)
    requires Shaped(b) && p < |b.code| && Takes(g, Slots(b)[p..], inner) && StopAt(Slots(b), last)
    requires p + last <= |b.code|
    requires Unrelocated(g, Slots(b)[p..], K, inner)
    requires inner ==> Source(K, Value(g, Slots(b)[p..]), 1).None?
    ensures GroupAt(g, Slots(b)[p..]) && 2 <= g.Len() && p + g.Len() + last <= |b.code|
    ensures var s, K' := Slots(b), Record(K, b.code[p].dst, Value(g, Slots(b)[p..]));
            && AfterPass(g, b, p, K, inner) == AfterPass(g, b, p + g.Len(), K', true)
            && Unrelocated(g, s[p + g.Len()..], K', true)
            && s[..p] + Pass(g, s[p..], K, inner) == s[..p + g.Len()] + Pass(g, s[p + g.Len()..], K', true)
  {
    hide AfterPass, Takes, GroupAt, Value, Source, Rebuilt, Pass, Record, Unrelocated, StopAt, Slots, AddiInsn;
    StepTake(g, b, p, K, inner);
    GroupPlain(g, b, p);
    GroupInFront(b, p, g.Len(), last);
    SliceAt(Slots(b), p, g.Len());
    PassTake(g, Slots(b)[p..], K, inner);
    CodeLong(g, Slots(b), p, K, inner);
  }

  /** Any other instruction. */
  lemma FreeSkip(g: Shape, b: Block, p: nat, K: Consts, inner: bool, last: nat)
    requires Shaped(b) && p < |b.code| && !Takes(g, Slots(b)[p..], inner) && !StopsPass(b.code[p].opc)
    requires Unrelocated(g, Slots(b)[p..], K, inner) && StopAt(Slots(b), last) && p + last <= |b.code|
    ensures p + 1 + last <= |b.code|
    ensures var s, K' := Slots(b), Killed(K, b.code[p].dst, inner);
            && AfterPass(g, b, p, K, inner) == AfterPass(g, b, p + 1, K', inner && K' != map[])
            && Unrelocated(g, s[p + 1..], K', inner && K' != map[])
            && s[..p] + Pass(g, s[p..], K, inner) == s[..p + 1] + Pass(g, s[p + 1..], K', inner && K' != map[])
  {
    hide AfterPass, Takes, Pass, Unrelocated, StopAt, Slots, Killed;
    StepSkip(g, b, p, K, inner);
    NotStopped(Slots(b), p, last);
    SliceAt(Slots(b), p, 1);
    PassSkip(g, Slots(b)[p..], K, inner);
    CodeSkip(g, Slots(b), p, K, inner);
  }

  lemma FreeStop(g: Shape, b: Block, p: nat, K: Consts, inner: bool)
    requires Shaped(b) && p <= |b.code| && (p == |b.code| || StopsPass(b.code[p].opc))
    ensures AfterPass(g, b, p, K, inner) == b && Slots(b) == Slots(b)[..p] + Pass(g, Slots(b)[p..], K, inner)
  {
    hide AfterPass, Takes, Pass, Slots;
    StepStop(g, b, p, K, inner);
    if p < |b.code| { GroupNotStop(g, Slots(b), p, inner); }
    PassStop(g, Slots(b)[p..], K, inner);
    SplitAt(Slots(b), p);
  }

  lemma {:induction false} FreeFrom(g: Shape, b: Block, p: nat, K: Consts, inner: bool, b0: Block, es: seq<Edit>,
                                    last: nat)
    returns (es': seq<Edit>)
    requires Wf(b) && Shaped(b) && p <= |b.code| && LeadsInFront(b0, es, b, last)
    requires Unrelocated(g, Slots(b)[p..], K, inner)
    requires StopAt(Slots(b), last) && p + last <= |b.code|
    ensures var c := AfterPass(g, b, p, K, inner);
            && LeadsInFront(b0, es', c, last) && StopAt(Slots(c), last)
            && Slots(c) == Slots(b)[..p] + Pass(g, Slots(b)[p..], K, inner)
    decreases |b.code| - p
  {
    hide Wf, LeadsInFront, AfterPass, Takes, GroupAt, Value, Source, Rebuilt, Pass, Record, Unrelocated, StopAt, Slots,
         AddiInsn, Killed;
    var s := Slots(b);
    if p == |s| || StopsPass(s[p].insn.opc) {
      es' := es;
      FreeStop(g, b, p, K, inner);
    } else if !Takes(g, s[p..], inner) {
      FreeSkip(g, b, p, K, inner, last);
      var K' := Killed(K, b.code[p].dst, inner);
      es' := FreeFrom(g, b, p + 1, K', inner && K' != map[], b0, es, last);
    } else {
      StepTake(g, b, p, K, inner);
      var c := Value(g, s[p..]);
      var K' := Record(K, b.code[p].dst, c);
      if inner && Source(K, c, 1).Some? {
        var src := Source(K, c, 1).value;
        GroupPlain(g, b, p);
        GroupInFront(b, p, g.Len(), last);
        es' := FreeTake(g, b, p, K, src, b0, es, last);
        var d := Rebuilt(b, p, g.Len(), AddiInsn(b.code[p].dst, src, c - K[src]));
        es' := FreeFrom(g, d, p + 1, K', true, b0, es', last);
      } else {
        FreeLong(g, b, p, K, inner, last);
        es' := FreeFrom(g, b, p + g.Len(), K', true, b0, es, last);
      }
    }
  }

  /** The whole visitor: its block is well formed and has the code that the pass function says.  If no
      group that it takes is under a live relocation, it has the marks too and is reached by
      harmless edits in front of the first branch, so branch lists, relocations and exits all
      follow (module Edits). */
  lemma VisitRight(g: Shape, b: Block, last: nat) returns (es: seq<Edit>)
    requires Wf(b) && StopAt(Slots(b), last)
    ensures Shaped(b) && Wf(AfterPass(g, b, 0, map[], false))
    ensures Like(g, Slots(AfterPass(g, b, 0, map[], false)), Pass(g, Slots(b), map[], false))
    ensures Unrelocated(g, Slots(b), map[], false) ==>
              var c := AfterPass(g, b, 0, map[], false);
              && Slots(c) == Pass(g, Slots(b), map[], false) && StopAt(Slots(c), last)
              && LeadsInFront(b, es, c, last)
  {
    hide AfterPass, Pass, Like, Unrelocated, LeadsInFront;
    AnyCode(g, b, 0, map[], false);
    es := [];
    var s := Slots(b);
    assert s[..0] == [] && s[0..] == s && [] + Pass(g, s, map[], false) == Pass(g, s, map[], false);
    if Unrelocated(g, s, map[], false) {
      InFrontNone(b, last);
      es := FreeFrom(g, b, 0, map[], false, b, [], last);
    }
  }
}
