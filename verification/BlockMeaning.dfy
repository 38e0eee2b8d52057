/** What a two-exit block computes, and that the passes followed by branch repair preserve it: the
    same exit is reached with the same state. */
module BlockMeanings {
  import opened Isa
  import opened Blocks
  import opened LinkLists
  import opened SlotViews
  import opened Edits
  import opened BlockRuns
  import RemoveNon
  import StackRuns
  import ConstFold
  import FixBranch
  import RemoveTail
  import TailMeanings
  import Repairs

  /** The exit that a block leaves through, 0 for the false and 1 for the true one, and the state
      there, its conditional branch taken to lead to the true exit; None if the block does
      not have that shape. */
  function Outcome<M>(m: Machine<M>, s: seq<Slot>, st: State<M>): Option<(nat, State<M>)> {
    var (st1, rest) := RunPrefix(m, s, st);
    if rest == [] || rest[0].insn.opc != BNE || rest[0].pinned then None
    else if st1.regs[rest[0].insn.src] != st1.regs[rest[0].insn.dst] then Some((1, st1))
    else
      var (st0, tail) := RunPrefix(m, rest[1..], st1);
      if tail != [] && tail[0].insn.opc == B then Some((0, st0)) else None
  }

  // ----- every pass preserves it -----

  lemma StackPassOutcome<M>(m: Machine<M>, k: StackRuns.Kind, s: seq<Slot>, st: State<M>)
    requires StackRuns.PassSafe(k, s)
    ensures Outcome(m, StackRuns.Pass(k, s), st) == Outcome(m, s, st)
  {
    StackRuns.PassMeaning(m, k, s, st);
  }

  lemma ConstPassOutcome<M(!new)>(m: Machine<M>, g: ConstFold.Shape, s: seq<Slot>, st: State<M>)
    requires WritesOnlyDst(m) && ConstFold.Unrelocated(g, s, map[], false)
    ensures Outcome(m, ConstFold.Pass(g, s, map[], false), st) == Outcome(m, s, st)
  {
    assert ConstFold.Known(map[], st);
    ConstFold.PassMeaning(m, g, s, map[], false, st);
  }

  lemma NopPassOutcome<M>(m: Machine<M>, s: seq<Slot>, st: State<M>)
    ensures Outcome(m, RemoveNon.DropNops(s), st) == Outcome(m, s, st)
  {
    var (st1, rest) := RunPrefix(m, s, st);
    RemoveNon.DropNopsMeaning(m, s, st);
    PrefixEnd(m, s, st);
    if rest != [] {
      DropHead(rest);
      RemoveNon.DropNopsMeaning(m, rest[1..], st1);
      PrefixEnd(m, rest[1..], st1);
      var tail := RunPrefix(m, rest[1..], st1).1;
      if tail != [] { DropHead(tail); }
    }
  }

  lemma DropHead(s: seq<Slot>)
    requires s != [] && StopsPass(s[0].insn.opc)
    ensures RemoveNon.DropNops(s) != [] && RemoveNon.DropNops(s)[0] == s[0]
    ensures RemoveNon.DropNops(s)[1..] == RemoveNon.DropNops(s[1..])
  {
    ConsTail(s[0], RemoveNon.DropNops(s[1..]));
  }

  lemma {:induction false} PrefixEnd<M>(m: Machine<M>, s: seq<Slot>, st: State<M>)
    ensures var rest := RunPrefix(m, s, st).1; rest != [] ==> StopsPass(rest[0].insn.opc)
  {
    if s != [] && !StopsPass(s[0].insn.opc) {
      PrefixEnd(m, s[1..], ExecSlot(m, s[0], st));
    }
  }

  // ----- two-exit blocks -----

  /** The block has one conditional branch, at q and not relocated, in front of the false exit, that in
      front of the true exit, and nothing but plain code else in front of the false exit. */
  ghost predicate TwoExits(b: Block, q: nat) {
    && Wf(b) && ValidExit(b, 0) && ValidExit(b, 1) && b.target[0] < b.target[1]
    && b.bnes == [q] && q < b.target[0] / 4 && !Covered(b, q)
    && (forall i :: 0 <= i < b.target[0] / 4 && i < |b.code| && i != q ==> ClassOf(b.code[i].opc) == NotBranch)
  }

  /** A block available for peephole optimisation with two exits is one, if its BNE is in front of the
      false exit and not relocated. */
  lemma AvailableTwoExits(b: Block)
    requires Wf(b) && Available(b) && ValidExit(b, 0) && ValidExit(b, 1)
    requires b.bnes[0] < b.target[0] / 4 && !Covered(b, b.bnes[0])
    ensures TwoExits(b, b.bnes[0])
  {
    assert ExitOk(b, 0) && ExitOk(b, 1);
    PositionsSound(b.code, ClassB, 0);
    forall i | 0 <= i < b.target[0] / 4 && i < |b.code| && i != b.bnes[0]
      ensures ClassOf(b.code[i].opc) == NotBranch
    {
      if ClassOf(b.code[i].opc) == ClassB { FirstListed(b, i); }
      if ClassOf(b.code[i].opc) == ClassBne { PositionsComplete(b.code, ClassBne, 0, i); }
      if ClassOf(b.code[i].opc) == ClassOther { PositionsComplete(b.code, ClassOther, 0, i); }
    }
  }

  lemma FirstListed(b: Block, i: nat)
    requires Wf(b) && i < |b.code| && ClassOf(b.code[i].opc) == ClassB
    ensures b.bs != [] && b.bs[0] <= i
  {
    PositionsComplete(b.code, ClassB, 0, i);
    PositionsSound(b.code, ClassB, 0);
    var k :| 0 <= k < |b.bs| && b.bs[k] == i;
  }

  lemma TwoExitsCode(b: Block, q: nat)
    requires TwoExits(b, q)
    ensures Shaped(b) && Wf(b) && b.bnes == [q] && ValidExit(b, 0) && ValidExit(b, 1) && !Slots(b)[q].pinned
    ensures q < b.target[0] / 4 < b.target[1] / 4 < |b.code| && b.target[0] % 4 == 0 && b.target[1] % 4 == 0
    ensures b.code[q].opc == BNE && b.code[b.target[0] / 4].opc == B
    ensures forall i :: 0 <= i < b.target[0] / 4 && i != q ==> ClassOf(b.code[i].opc) == NotBranch
    ensures forall i :: 0 <= i < |b.code| && i != q ==> ClassOf(b.code[i].opc) != ClassBne
  {
    hide RelsFit, RelsApart, Covered;
    assert ExitOk(b, 0) && ExitOk(b, 1);
    PositionsSound(b.code, ClassBne, 0);
    assert q in b.bnes;
    forall i | 0 <= i < |b.code| && i != q
      ensures ClassOf(b.code[i].opc) != ClassBne
    {
      if ClassOf(b.code[i].opc) == ClassBne { PositionsComplete(b.code, ClassBne, 0, i); }
    }
  }

  lemma PrefixSplit<M>(m: Machine<M>, s: seq<Slot>, q: nat, st: State<M>)
    requires q < |s| && StopsPass(s[q].insn.opc) && forall i :: 0 <= i < q ==> ClassOf(s[i].insn.opc) == NotBranch
    ensures RunPrefix(m, s, st) == (ExecAll(m, s[..q], st), s[q..])
  {
    SplitAt(s, q);
    RunPrefixAppend(m, s[..q], s[q..], st);
  }

  /** The outcome of a two-exit block, read off its slots. */
  function Direct<M>(m: Machine<M>, s: seq<Slot>, q: nat, t: nat, st: State<M>): (nat, State<M>)
    requires q < t < |s|
  {
    var st1 := ExecAll(m, s[..q], st);
    if st1.regs[s[q].insn.src] != st1.regs[s[q].insn.dst] then (1, st1) else (0, ExecAll(m, s[q + 1..t], st1))
  }

  lemma OutcomeSplit<M>(m: Machine<M>, s: seq<Slot>, q: nat, t: nat, st: State<M>)
    requires q < t < |s| && s[q].insn.opc == BNE && !s[q].pinned && s[t].insn.opc == B
    requires forall i :: 0 <= i < t && i != q ==> ClassOf(s[i].insn.opc) == NotBranch
    ensures Outcome(m, s, st) == Some(Direct(m, s, q, t, st))
  {
    hide RunPrefix, ExecAll;
    var st1, after := ExecAll(m, s[..q], st), s[q + 1..];
    PrefixSplit(m, s, q, st);
    assert s[q..][1..] == after && s[q..][0] == s[q];
    assert forall i :: 0 <= i < t - q ==> after[i] == s[q + 1 + i];
    PrefixSplit(m, after, t - q - 1, st1);
    assert after[..t - q - 1] == s[q + 1..t] && after[t - q - 1..][0] == s[t];
  }

  lemma OutcomeDirect<M>(m: Machine<M>, b: Block, q: nat, st: State<M>)
    requires TwoExits(b, q)
    ensures Shaped(b) && q < b.target[0] / 4 < |b.code|
    ensures Outcome(m, Slots(b), st) == Some(Direct(m, Slots(b), q, b.target[0] / 4, st))
  {
    hide TwoExits, Covered, Outcome, Direct;
    TwoExitsCode(b, q);
    OutcomeSplit(m, Slots(b), q, b.target[0] / 4, st);
  }

  /** What the outcome depends on: the code in front of the false exit, except where the BNE is aimed. */
  lemma SameDirect<M>(m: Machine<M>, s: seq<Slot>, s': seq<Slot>, q: nat, t: nat, st: State<M>)
    requires q < t < |s| && t < |s'| && s'[q].insn.src == s[q].insn.src && s'[q].insn.dst == s[q].insn.dst
    requires forall i :: 0 <= i < t && i != q ==> s'[i] == s[i]
    ensures Direct(m, s', q, t, st) == Direct(m, s, q, t, st)
  {
    assert s'[..q] == s[..q] && s'[q + 1..t] == s[q + 1..t];
  }

  // ----- a block whose branch is aimed right reaches its outcome -----

  /** n is the first step at which a run from the start of the block stands on an exit. */
  ghost predicate FirstArrival<M>(m: Machine<M>, b: Block, st: State<M>, n: nat)
    requires Shaped(b)
  {
    forall i :: 0 <= i < n ==>
      var pc := Steps(m, Slots(b), Config(0, st), i).pc; pc != b.target[0] / 4 && pc != b.target[1] / 4
  }

  /** Plain code is run one position per step. */
  lemma {:induction false} PlainSteps<M>(m: Machine<M>, s: seq<Slot>, lo: nat, hi: nat, st: State<M>, n: nat)
    requires lo + n <= hi <= |s| && forall q :: lo <= q < hi ==> ClassOf(s[q].insn.opc) == NotBranch
    ensures Steps(m, s, Config(lo, st), n) == Config(lo + n, ExecAll(m, s[lo..lo + n], st))
    decreases n
  {
    if n > 0 {
      assert s[lo..lo + n][0] == s[lo] && s[lo..lo + n][1..] == s[lo + 1..lo + 1 + (n - 1)];
      PlainSteps(m, s, lo + 1, hi, ExecSlot(m, s[lo], st), n - 1);
    }
  }

  lemma UpToBne<M>(m: Machine<M>, b: Block, q: nat, st: State<M>, i: nat)
    requires TwoExits(b, q) && i <= q
    ensures Shaped(b) && q < |b.code|
    ensures Steps(m, Slots(b), Config(0, st), i) == Config(i, ExecAll(m, Slots(b)[..i], st))
  {
    TwoExitsCode(b, q);
    PlainSteps(m, Slots(b), 0, q, st, i);
    assert Slots(b)[0..i] == Slots(b)[..i];
  }

  lemma AtBne<M>(m: Machine<M>, b: Block, q: nat, st: State<M>)
    requires TwoExits(b, q) && q < |b.code| && FixBranch.BneAimed(b, q)
    ensures var i, st1 := b.code[q], ExecAll(m, Slots(b)[..q], st);
            Steps(m, Slots(b), Config(0, st), q + 1)
              == Config(if st1.regs[i.src] != st1.regs[i.dst] then b.target[1] / 4 else q + 1, st1)
  {
    hide Steps, TwoExits, Covered;
    TwoExitsCode(b, q);
    UpToBne(m, b, q, st, q);
    StepsLast(m, Slots(b), Config(0, st), q);
  }

  lemma BehindBne<M>(m: Machine<M>, b: Block, q: nat, st: State<M>, i: nat)
    requires TwoExits(b, q) && q < |b.code| && FixBranch.BneAimed(b, q) && q < i <= b.target[0] / 4 < |b.code|
    requires var st1 := ExecAll(m, Slots(b)[..q], st); st1.regs[b.code[q].src] == st1.regs[b.code[q].dst]
    ensures Steps(m, Slots(b), Config(0, st), i)
              == Config(i, ExecAll(m, Slots(b)[q + 1..i], ExecAll(m, Slots(b)[..q], st)))
  {
    hide Steps, TwoExits, Covered;
    TwoExitsCode(b, q);
    AtBne(m, b, q, st);
    StepsAdd(m, Slots(b), Config(0, st), q + 1, i - (q + 1));
    PlainSteps(m, Slots(b), q + 1, b.target[0] / 4, ExecAll(m, Slots(b)[..q], st), i - (q + 1));
  }

  /** A run of a two-exit block whose branch is aimed right arrives first at the exit, and in the state,
      that its outcome says. */
  lemma OutcomeReached<M>(m: Machine<M>, b: Block, q: nat, st: State<M>) returns (n: nat)
    requires TwoExits(b, q) && q < |b.code| && FixBranch.BneAimed(b, q)
    ensures var o := Outcome(m, Slots(b), st);
            && o.Some? && o.value.0 < 2 && FirstArrival(m, b, st, n)
            && Steps(m, Slots(b), Config(0, st), n) == Config(b.target[o.value.0] / 4, o.value.1)
  {
    hide TwoExits, Outcome, Steps, FixBranch.BneAimed;
    TwoExitsCode(b, q);
    OutcomeDirect(m, b, q, st);
    AtBne(m, b, q, st);
    var t, st1 := b.target[0] / 4, ExecAll(m, Slots(b)[..q], st);
    var taken := st1.regs[b.code[q].src] != st1.regs[b.code[q].dst];
    n := if taken then q + 1 else t;
    forall i | 0 <= i < n
      ensures Steps(m, Slots(b), Config(0, st), i).pc == i
    {
      if i <= q { UpToBne(m, b, q, st, i); } else { BehindBne(m, b, q, st, i); }
    }
    if !taken { BehindBne(m, b, q, st, t); }
  }

  // ----- passes, tail removal and repair keep the shape -----

  lemma {:induction false} CoveredLater(b: Block, es: seq<Edit>, c: Block, q: nat)
    requires Wf(b) && Leads(b, es, c) && q < |b.code| && Untouched(es, q)
    ensures Wf(c) && Track(es, q) < |c.code| && Covered(c, Track(es, q)) == Covered(b, q)
    decreases |es|
  {
    hide Wf, Free;
    if es != [] {
      var n := |es| - 1;
      var m :| Leads(b, es[..n], m) && Ok(m, es[n]) && Apply(m, es[n]) == c;
      CoveredLater(b, es[..n], m, q);
      CoveredOnce(m, es[n], Track(es[..n], q));
      ApplyWf(m, es[n]);
    }
  }

  lemma CoveredOnce(b: Block, e: Edit, q: nat)
    requires Wf(b) && Ok(b, e) && q < |b.code| && q != e.p
    ensures Moved(e, q) < |Apply(b, e).code| && Covered(Apply(b, e), Moved(e, q)) == Covered(b, q)
  {
    if e.Del? {
      CoveredAfterCut(b, e.p, 1, q);
    } else {
      SlotsSet(b, e.p, e.insn);
      assert Slots(Overwrite(b, e.p, e.insn))[q].pinned == Slots(b)[q].pinned;
    }
  }

  /** Histories of edits keep the two-exit shape. */
  lemma TwoExitsLater(b: Block, es: seq<Edit>, c: Block, q: nat)
    requires TwoExits(b, q) && Leads(b, es, c)
    ensures TwoExits(c, Track(es, q))
  {
    hide Leads, RelsFit, RelsApart, Covered;
    LeadsWf(b, es, c);
    LeadsBranches(b, es, c);
    LeadsExit(b, es, c, 0);
    LeadsExit(b, es, c, 1);
    TwoExitsCode(b, q);
    assert b.bnes[0] == q;
    CoveredLater(b, es, c, q);
    TrackOrder(es, q, b.target[0] / 4);
    TrackOrder(es, b.target[0] / 4, b.target[1] / 4);
    forall i | 0 <= i < c.target[0] / 4 && i < |c.code| && i != Track(es, q)
      ensures ClassOf(c.code[i].opc) == NotBranch
    {
      NoBranchBefore(b, es, c, q, i);
    }
  }

  lemma NoBranchBefore(b: Block, es: seq<Edit>, c: Block, q: nat, i: nat)
    requires TwoExits(b, q) && Leads(b, es, c) && Wf(c) && i < c.target[0] / 4 && i < |c.code| && i != Track(es, q)
    ensures ClassOf(c.code[i].opc) == NotBranch
  {
    hide Leads, RelsFit, RelsApart, Covered;
    LeadsBranches(b, es, c);
    LeadsExit(b, es, c, 0);
    TwoExitsCode(b, q);
    if ClassOf(c.code[i].opc) == ClassB { var k := ListedBehind(b.code, c.code, ClassB, es, b.target[0] / 4, i); }
    if ClassOf(c.code[i].opc) == ClassBne { var k := ListedBehind(b.code, c.code, ClassBne, es, b.target[0] / 4, i); }
    if ClassOf(c.code[i].opc) == ClassOther {
      var k := ListedBehind(b.code, c.code, ClassOther, es, b.target[0] / 4, i);
    }
  }

  /** A branch in front of position t of the old code is where a branch of the new one was. */
  lemma ListedBehind(x: seq<Insn>, y: seq<Insn>, d: BranchClass, es: seq<Edit>, t: nat, i: nat) returns (k: nat)
    requires i < |y| && ClassOf(y[i].opc) == d && i < Track(es, t) && Untouched(es, t)
    requires |Positions(y, d)| == |Positions(x, d)|
    requires forall k :: 0 <= k < |Positions(x, d)| ==>
               Untouched(es, Positions(x, d)[k]) && Positions(y, d)[k] == Track(es, Positions(x, d)[k])
    ensures k < t && k < |x| && ClassOf(x[k].opc) == d && i == Track(es, k)
  {
    PositionsComplete(y, d, 0, i);
    PositionsSound(x, d, 0);
    var j :| 0 <= j < |Positions(y, d)| && Positions(y, d)[j] == i;
    k := Positions(x, d)[j];
    assert k in Positions(x, d);
    if t < k { TrackOrder(es, t, k); }
  }

  lemma AimedCovered(b: Block, d: Block)
    requires Shaped(b) && Shaped(d) && d.rels == b.rels && d.live == b.live
    ensures forall i: nat :: Covered(d, i) == Covered(b, i)
  {
  }

  /** Aiming the BNE, or an exit, changes nothing else. */
  lemma AimedKeeps<M>(m: Machine<M>, b: Block, q: nat, pos: nat, x: nat, st: State<M>)
    requires TwoExits(b, q) && pos < |b.code| && (pos == q || pos >= b.target[0] / 4)
    ensures var d := FixBranch.Aimed(b, pos, x);
            && TwoExits(d, q) && Shaped(b) && Shaped(d) && |d.code| == |b.code| && d.target == b.target && q < |b.code|
            && Outcome(m, Slots(d), st) == Outcome(m, Slots(b), st)
            && (pos != q ==> FixBranch.BneAimed(d, q) == FixBranch.BneAimed(b, q))
  {
    hide Covered, Outcome, RefsOk, BranchExact, ExitOk;
    TwoExitsCode(b, q);
    var d := FixBranch.Aimed(b, pos, x);
    FixBranch.AimedWf(b, pos, x);
    AimedCovered(b, d);
    OutcomeDirect(m, b, q, st);
    OutcomeDirect(m, d, q, st);
    SameDirect(m, Slots(b), Slots(d), q, b.target[0] / 4, st);
  }

  /** Repair, in every combination of linked successors, aims the branch right and keeps the outcome. */
  lemma RepairedKeeps<M>(m: Machine<M>, b: Block, q: nat, t: bool, f: bool, d: Block, st: State<M>)
    requires TwoExits(b, q) && FixBranch.Repaired(b, t, f, d)
    ensures TwoExits(d, q) && q < |d.code| && FixBranch.BneAimed(d, q)
    ensures Shaped(b) && Outcome(m, Slots(d), st) == Outcome(m, Slots(b), st)
  {
    hide TwoExits, Covered, Outcome;
    TwoExitsCode(b, q);
    var c := FixBranch.Aimed(b, q, b.target[1] / 4);
    AimedKeeps(m, b, q, q, b.target[1] / 4, st);
    if d != c {
      var w := if f then 1 else 0;
      var j :| FixBranch.Candidate(c, j, c.target[w])
        && d == FixBranch.Aimed(c, c.target[w] / 4, c.rels[j].tcOffset / 4);
      AimedKeeps(m, c, q, c.target[w] / 4, c.rels[j].tcOffset / 4, st);
    }
  }

  // ----- tail removal -----

  /** The slots in front of the first removed tail, counted from the false exit. */
  function FrontLimit(b: Block, t: bool, f: bool): nat
    requires Shaped(b)
  {
    if f && b.target[0] / 4 + 1 < b.target[1] / 4 then b.target[0] / 4 + 1
    else if t then b.target[1] / 4 + 1
    else |b.code|
  }

  /** No live relocation on a slot up to the false exit reaches into a tail that is removed, where t
      and f tell whether the true and the false successor are linked. */
  ghost predicate FrontStays(b: Block, t: bool, f: bool)
    requires Shaped(b)
  {
    forall j :: 0 <= j < |b.rels| && b.live[j] && b.rels[j].tcOffset <= b.target[0] ==>
      b.rels[j].tcOffset + 4 * b.rels[j].slots <= 4 * FrontLimit(b, t, f)
  }

  lemma CutFront(b: Block, p: nat, n: nat, i: nat)
    requires RefsOk(b) && i < p && p + n <= |b.code|
    requires forall j :: 0 <= j < |b.rels| && b.live[j] && b.rels[j].tcOffset <= 4 * i ==> !Overlaps(b.rels[j], p, n)
    ensures Slots(Cut(b, p, n))[i] == Slots(b)[i]
  {
    hide Overlaps;
    CoveredCut(b, p, n, i);
  }

  /** A cut behind position e that no relocation up to there reaches leaves the code up to there as it is. */
  lemma FrontSame(b: Block, e: nat, p: nat, n: nat)
    requires RefsOk(b) && e < p && p + n <= |b.code|
    requires forall j :: 0 <= j < |b.rels| && b.live[j] && b.rels[j].tcOffset <= 4 * e ==> !Overlaps(b.rels[j], p, n)
    ensures forall i :: 0 <= i <= e ==> Slots(Cut(b, p, n))[i] == Slots(b)[i]
  {
    hide RelsFit, RelsApart, ExitsAligned, Overlaps, Cut;
    forall i | 0 <= i <= e
      ensures Slots(Cut(b, p, n))[i] == Slots(b)[i]
    {
      CutFront(b, p, n, i);
    }
  }

  lemma TrimShape(b: Block, q: nat, w: nat)
    requires TwoExits(b, q) && w < 2
    requires forall j :: 0 <= j < |b.rels| && b.live[j] && b.rels[j].tcOffset <= b.target[0] ==>
               !Overlaps(b.rels[j], b.target[w] / 4 + 1, RemoveTail.Remain(b, w))
    ensures b.target[w] / 4 + 1 + RemoveTail.Remain(b, w) <= |b.code| && b.target[w] / 4 + 1 <= |b.code|
    ensures var c := RemoveTail.Trim(b, w);
            && Shaped(c) && Wf(c) && c.reset == b.reset && c.target[0] == b.target[0] && c.target[0] < c.target[1]
            && c.bnes == [q]
            && b.target[0] / 4 < |c.code|
            && forall i :: 0 <= i <= b.target[0] / 4 ==> Slots(c)[i] == Slots(b)[i]
  {
    hide RelsFit, RelsApart, Covered, Overlaps, RemoveTail.Trim;
    TwoExitsCode(b, q);
    RemoveTail.TrimWf(b, w);
    Repairs.TrimStanding(b, q, w);
    TailMeanings.TrimIsCut(b, w);
    assert ExitOk(RemoveTail.Trim(b, w), 0);
    FrontSame(b, b.target[0] / 4, b.target[w] / 4 + 1, RemoveTail.Remain(b, w));
  }

  /** Block c is two-exit with the BNE where b has it, and agrees with b up to the false exit. */
  ghost predicate SameFront(b: Block, q: nat, c: Block) {
    && Shaped(b) && TwoExits(c, q) && c.target[0] == b.target[0] && b.target[0] / 4 < |b.code|
    && b.target[0] / 4 < |c.code|
    && forall i :: 0 <= i <= b.target[0] / 4 ==> Slots(c)[i] == Slots(b)[i]
  }

  lemma TrimKeeps(b: Block, q: nat, w: nat)
    requires TwoExits(b, q) && w < 2
    requires forall j :: 0 <= j < |b.rels| && b.live[j] && b.rels[j].tcOffset <= b.target[0] ==>
               !Overlaps(b.rels[j], b.target[w] / 4 + 1, RemoveTail.Remain(b, w))
    ensures b.target[w] / 4 + 1 + RemoveTail.Remain(b, w) <= |b.code| && b.target[w] / 4 + 1 <= |b.code|
    ensures SameFront(b, q, RemoveTail.Trim(b, w))
  {
    hide Wf, Overlaps, RemoveTail.Trim;
    TrimShape(b, q, w);
    TwoExitsCode(b, q);
    var c := RemoveTail.Trim(b, w);
    assert Slots(c)[q] == Slots(b)[q];
    assert forall i :: 0 <= i < b.target[0] / 4 ==> Slots(c)[i] == Slots(b)[i] && Slots(c)[i].insn == c.code[i];
  }

  /** Tail removal keeps the code up to the false exit. */
  lemma TrimmedFront(b: Block, q: nat, t: bool, f: bool, c: Block)
    requires TwoExits(b, q) && FrontStays(b, t, f) && RemoveTail.Trimmed(b, t, f, c)
    ensures SameFront(b, q, c)
  {
    hide TwoExits, RemoveTail.Trim, Slots;
    TwoExitsCode(b, q);
    if f {
      LimitOne(b, q, t, 0);
      TrimKeeps(b, q, 0);
      if t {
        FrontTrimmed(b, q);
        TrimKeeps(RemoveTail.Trim(b, 0), q, 1);
      }
    } else if t {
      LimitOne(b, q, f, 1);
      TrimKeeps(b, q, 1);
    }
  }

  /** and with it the outcome. */
  lemma TrimmedKeeps<M>(m: Machine<M>, b: Block, q: nat, t: bool, f: bool, c: Block, st: State<M>)
    requires TwoExits(b, q) && FrontStays(b, t, f) && RemoveTail.Trimmed(b, t, f, c)
    ensures TwoExits(c, q) && Shaped(b) && Outcome(m, Slots(c), st) == Outcome(m, Slots(b), st)
  {
    hide TwoExits, RemoveTail.Trimmed, Outcome, FrontStays;
    TrimmedFront(b, q, t, f, c);
    TwoExitsCode(b, q);
    OutcomeDirect(m, b, q, st);
    OutcomeDirect(m, c, q, st);
    SameDirect(m, Slots(b), Slots(c), q, b.target[0] / 4, st);
  }

  lemma LimitOne(b: Block, q: nat, other: bool, w: nat)
    requires TwoExits(b, q) && w < 2 && FrontStays(b, if w == 1 then true else other, w == 0)
    ensures forall j :: 0 <= j < |b.rels| && b.live[j] && b.rels[j].tcOffset <= b.target[0] ==>
              !Overlaps(b.rels[j], b.target[w] / 4 + 1, RemoveTail.Remain(b, w))
  {
    hide Covered;
    TwoExitsCode(b, q);
  }

  lemma FrontTrimmed(b: Block, q: nat)
    requires TwoExits(b, q) && FrontStays(b, true, true)
    ensures b.target[0] / 4 + 1 + RemoveTail.Remain(b, 0) <= |b.code| && b.target[0] / 4 + 1 <= |b.code|
    ensures var e := RemoveTail.Trim(b, 0);
            && Shaped(e)
            && forall j :: 0 <= j < |e.rels| && e.live[j] && e.rels[j].tcOffset <= e.target[0] ==>
                 !Overlaps(e.rels[j], e.target[1] / 4 + 1, RemoveTail.Remain(e, 1))
  {
    hide RelsFit, RelsApart, Covered, BranchExact;
    TwoExitsCode(b, q);
  }

  // ----- the optimiser on one block -----

  /** Exits with a tail between them were not next to each other before. */
  lemma ApartLater(b: Block, es: seq<Edit>, c: Block)
    requires Wf(b) && Leads(b, es, c) && ValidExit(b, 0) && ValidExit(b, 1) && b.target[0] < b.target[1]
    ensures ValidExit(c, 0) && ValidExit(c, 1) && c.target[0] < c.target[1]
    ensures c.target[0] / 4 + 1 < c.target[1] / 4 ==> b.target[0] / 4 + 1 < b.target[1] / 4
  {
    hide Leads, RelsFit, RelsApart, Covered, BranchExact, Track;
    LeadsExit(b, es, c, 0);
    LeadsExit(b, es, c, 1);
    var t0, t1 := b.target[0] / 4, b.target[1] / 4;
    assert ExitOk(b, 0) && ExitOk(b, 1);
    TrackOrder(es, t0, t1);
    if t0 + 1 == t1 { TrackNext(es, t0); }
  }

  /** Edits keep relocations out of the tails. */
  lemma FrontLater(b: Block, es: seq<Edit>, c: Block, q: nat, t: bool, f: bool)
    requires TwoExits(b, q) && Leads(b, es, c) && FrontStays(b, t, f)
    ensures Shaped(c) && FrontStays(c, t, f)
  {
    hide TwoExits, Leads, RelsApart, Covered, BranchExact;
    TwoExitsCode(b, q);
    LeadsWf(b, es, c);
    ApartLater(b, es, c);
    assert ExitOk(c, 0) && ExitOk(c, 1) && RelsFit(c.rels, c.live, |c.code|);
    forall j | 0 <= j < |c.rels| && c.live[j] && c.rels[j].tcOffset <= c.target[0]
      ensures c.rels[j].tcOffset + 4 * c.rels[j].slots <= 4 * FrontLimit(c, t, f)
    {
      EndsLater(b, es, c, j, 0);
      EndsLater(b, es, c, j, 1);
    }
  }

  /** n and n' are the first arrivals of the two runs at an exit, the same one and in the same state. */
  ghost predicate SameArrival<M>(m: Machine<M>, b: Block, d: Block, st: State<M>, n: nat, n': nat, w: nat,
                                 end: State<M>)
    requires Shaped(b) && Shaped(d)
  {
    && w < 2 && FirstArrival(m, b, st, n) && FirstArrival(m, d, st, n')
    && Steps(m, Slots(b), Config(0, st), n) == Config(b.target[w] / 4, end)
    && Steps(m, Slots(d), Config(0, st), n') == Config(d.target[w] / 4, end)
  }

  /** From state st both blocks arrive at the same exit in the same state. */
  ghost predicate SameExit<M(!new)>(m: Machine<M>, b: Block, d: Block, st: State<M>)
    requires Shaped(b) && Shaped(d)
  {
    exists n: nat, n': nat, w: nat, end: State<M> :: SameArrival(m, b, d, st, n, n', w, end)
  }

  /** A two-exit block, any history of passes that preserve its outcome, then tail removal, then branch
      repair, with any successors linked: from every state the optimised block arrives at the same
      exit in the same state as the original, although deletions have moved its instructions. */
  lemma OptimisedBlock<M(!new)>(m: Machine<M>, b: Block, q: nat, es: seq<Edit>, c: Block, t: bool, f: bool, e: Block,
                                d: Block, st: State<M>)
    requires TwoExits(b, q) && q < |b.code| && FixBranch.BneAimed(b, q) && FrontStays(b, t, f)
    requires Leads(b, es, c) && Shaped(c) && Outcome(m, Slots(c), st) == Outcome(m, Slots(b), st)
    requires RemoveTail.Trimmed(c, t, f, e) && Shaped(e) && FixBranch.Repaired(e, t, f, d)
    ensures Shaped(d) && SameExit(m, b, d, st)
  {
    hide TwoExits, Leads, Outcome, Slots, Steps, FrontStays, FixBranch.BneAimed, FixBranch.Repaired, RemoveTail.Trimmed;
    var q' := Track(es, q);
    var n := OutcomeReached(m, b, q, st);
    TwoExitsLater(b, es, c, q);
    FrontLater(b, es, c, q, t, f);
    TrimmedKeeps(m, c, q', t, f, e, st);
    RepairedKeeps(m, e, q', t, f, d, st);
    TwoExitsCode(b, q);
    TwoExitsCode(d, q');
    var n' := OutcomeReached(m, d, q', st);
    var o := Outcome(m, Slots(b), st).value;
    assert SameArrival(m, b, d, st, n, n', o.0, o.1);
  }
}
