/** The optimiser on one block, as the driver means it: the peephole passes, nop removal, tail removal
    and branch repair. */
module Optimisers {
  import opened Isa
  import opened Blocks
  import opened SlotViews
  import opened Peephole
  import opened Edits
  import opened Tbs
  import opened BlockMeanings
  import opened OneWays
  import opened ExitMeanings
  import opened FixBranch
  import RemoveNon
  import ConstPasses
  import ConstVisitors
  import StackPasses
  import StackVisitors
  import StackRuns
  import ConstFold
  import RemoveTail

  /** What each pass needs of the slots it is given. */
  ghost predicate Optimisable(s: seq<Slot>) {
    var s1 := ConstFold.Pass(ConstFold.LuOriLu32, s, map[], false);
    var s2 := ConstFold.Pass(ConstFold.LuOri, s1, map[], false);
    var s3 := StackRuns.Pass(StackRuns.Push, s2);
    && ConstFold.Unrelocated(ConstFold.LuOriLu32, s, map[], false)
    && ConstFold.Unrelocated(ConstFold.LuOri, s1, map[], false)
    && StackPasses.Trackable(StackRuns.Push, s2) && StackRuns.PassSafe(StackRuns.Push, s2)
    && StackPasses.Trackable(StackRuns.Pop, s3) && StackRuns.PassSafe(StackRuns.Pop, s3)
  }

  ghost function AllPasses(s: seq<Slot>): seq<Slot> {
    var s2 := ConstFold.Pass(ConstFold.LuOri, ConstFold.Pass(ConstFold.LuOriLu32, s, map[], false), map[], false);
    RemoveNon.DropNops(StackRuns.Pass(StackRuns.Pop, StackRuns.Pass(StackRuns.Push, s2)))
  }

  /** All of them preserve the state at the first branch. */
  lemma AllPassesState<M(!new)>(m: Machine<M>, s: seq<Slot>, st: State<M>)
    requires WritesOnlyDst(m) && Optimisable(s)
    ensures RunPrefix(m, AllPasses(s), st).0 == RunPrefix(m, s, st).0
  {
    hide RunPrefix;
    var s1 := ConstFold.Pass(ConstFold.LuOriLu32, s, map[], false);
    var s2 := ConstFold.Pass(ConstFold.LuOri, s1, map[], false);
    var s3 := StackRuns.Pass(StackRuns.Push, s2);
    assert ConstFold.Known(map[], st);
    ConstFold.PassMeaning(m, ConstFold.LuOriLu32, s, map[], false, st);
    ConstFold.PassMeaning(m, ConstFold.LuOri, s1, map[], false, st);
    StackRuns.PassMeaning(m, StackRuns.Push, s2, st);
    StackRuns.PassMeaning(m, StackRuns.Pop, s3, st);
    RemoveNon.DropNopsMeaning(m, StackRuns.Pass(StackRuns.Pop, s3), st);
  }

  lemma AllPassesOutcome<M(!new)>(m: Machine<M>, s: seq<Slot>, st: State<M>)
    requires WritesOnlyDst(m) && Optimisable(s)
    ensures Outcome(m, AllPasses(s), st) == Outcome(m, s, st)
  {
    hide Outcome;
    var s1 := ConstFold.Pass(ConstFold.LuOriLu32, s, map[], false);
    var s2 := ConstFold.Pass(ConstFold.LuOri, s1, map[], false);
    var s3 := StackRuns.Pass(StackRuns.Push, s2);
    ConstPassOutcome(m, ConstFold.LuOriLu32, s, st);
    ConstPassOutcome(m, ConstFold.LuOri, s1, st);
    StackPassOutcome(m, StackRuns.Push, s2, st);
    StackPassOutcome(m, StackRuns.Pop, s3, st);
    NopPassOutcome(m, StackRuns.Pass(StackRuns.Pop, s3), st);
  }

  // ----- the passes move what is behind the first branch alike -----

  function FirstStop(s: seq<Slot>): (n: nat)
    ensures n <= |s| && (n < |s| ==> StopsPass(s[n].insn.opc))
    ensures forall i :: 0 <= i < n ==> !StopsPass(s[i].insn.opc)
  {
    if s == [] || StopsPass(s[0].insn.opc) then 0 else 1 + FirstStop(s[1..])
  }

  /** From the first branch on, two instructions that stay get closer by the removed nops between them,
      and by nothing else. */
  ghost predicate NopsOnly(s: seq<Slot>, es: seq<Edit>, last: nat) {
    forall x, r :: 0 <= x <= r < |s| && |s| - last <= x && !RemoveNon.Removable(s[x]) && !RemoveNon.Removable(s[r]) ==>
      Track(es, r) - Track(es, x) == |RemoveNon.DropNops(s[x..r])|
  }

  /** Behind the first branch the slots are the same, further in front. */
  lemma SameBehind(b: Block, es: seq<Edit>, m: Block, last: nat, x: nat)
    requires Wf(b) && LeadsInFront(b, es, m, last) && |b.code| - last <= x < |b.code|
    ensures Wf(m) && Track(es, x) == x + |m.code| - |b.code| && Track(es, x) < |m.code|
    ensures Slots(m)[Track(es, x)] == Slots(b)[x]
  {
    hide Leads, RelsFit, RelsApart, ExitsAligned, BranchExact, Covered;
    LeadsWf(b, es, m);
    LeadsInsn(b, es, m, x);
    CoveredLater(b, es, m, x);
  }

  lemma NopsBehind(b: Block, es: seq<Edit>, m: Block, fs: seq<Edit>, last: nat)
    requires Wf(b) && LeadsInFront(b, es, m, last) && Wf(m)
    requires forall x, r ::
               0 <= x <= r < |m.code| && !RemoveNon.Removable(Slots(m)[x]) && !RemoveNon.Removable(Slots(m)[r]) ==>
               Track(fs, r) - Track(fs, x) == |RemoveNon.DropNops(Slots(m)[x..r])|
    ensures Shaped(b) && NopsOnly(Slots(b), es + fs, last)
  {
    hide RelsFit, RelsApart, ExitsAligned, BranchExact, ExitOk, Covered, LeadsInFront, RemoveNon.Removable,
         RemoveNon.DropNops, Track;
    var s, u := Slots(b), Slots(m);
    forall x, r | 0 <= x <= r < |s| && |s| - last <= x && !RemoveNon.Removable(s[x]) && !RemoveNon.Removable(s[r])
      ensures Track(es + fs, r) - Track(es + fs, x) == |RemoveNon.DropNops(s[x..r])|
    {
      TrackAppend(es, fs, x);
      TrackAppend(es, fs, r);
      SameBehind(b, es, m, last, x);
      SameBehind(b, es, m, last, r);
      forall i | x <= i < r
        ensures u[i + |u| - |s|] == s[i]
      {
        SameBehind(b, es, m, last, i);
      }
      var x', r' := Track(es, x), Track(es, r);
      assert u[x'..r'] == s[x..r];
    }
  }

  /** The four peephole passes of the driver, then nop removal. */
  method RunPasses(tb: TB) returns (ghost es: seq<Edit>)
    requires tb.Valid() && Wf(tb.View()) && Optimisable(Slots(tb.View()))
    modifies tb`rels, tb`relsValid, tb`jmpTarget, tb`bInsns, tb`bneInsns, tb`otherBInsns, tb.insns, tb.insns.Repr
    ensures tb.Valid() && Wf(tb.View()) && tb.insns.Repr == old(tb.insns.Repr)
    ensures Leads(old(tb.View()), es, tb.View()) && Slots(tb.View()) == AllPasses(Slots(old(tb.View())))
    ensures var s := Slots(old(tb.View())); NopsOnly(s, es, |s| - FirstStop(s))
  {
    hide *;
    ghost var b := tb.View();
    ghost var last := |Slots(b)| - FirstStop(Slots(b));
    Stages(Slots(b));
    StopFirst(Slots(b));
    es := ConstPasses.VisitRight(ConstFold.LuOriLu32, b, last);
    ConstVisitors.Visit(ConstFold.LuOriLu32, tb);
    ghost var m := tb.View();
    ghost var fs := ConstPasses.VisitRight(ConstFold.LuOri, m, last);
    ConstVisitors.Visit(ConstFold.LuOri, tb);
    InFrontAppend(b, es, m, fs, tb.View(), last);
    es, m := es + fs, tb.View();
    fs := StackPasses.VisitTracked(StackRuns.Push, m, last);
    WfAligned(m);
    StackVisitors.Visit(StackRuns.Push, tb);
    InFrontAppend(b, es, m, fs, tb.View(), last);
    es, m := es + fs, tb.View();
    fs := StackPasses.VisitTracked(StackRuns.Pop, m, last);
    WfAligned(m);
    StackVisitors.Visit(StackRuns.Pop, tb);
    InFrontAppend(b, es, m, fs, tb.View(), last);
    es, m := es + fs, tb.View();
    fs := RemoveNon.NopsRight(m);
    WfAligned(m);
    RemoveNon.Visit(tb);
    FrontLeads(b, es, m, last);
    LeadsAppend(b, es, m, fs, tb.View());
    NopsBehind(b, es, m, fs, last);
    es := es + fs;
  }

  lemma StopFirst(s: seq<Slot>)
    ensures StopAt(s, |s| - FirstStop(s))
  {
  }

  lemma FrontLeads(b: Block, es: seq<Edit>, m: Block, last: nat)
    requires LeadsInFront(b, es, m, last)
    ensures Leads(b, es, m)
  {
  }

  lemma Stages(s: seq<Slot>)
    requires Optimisable(s)
    ensures var s1 := ConstFold.Pass(ConstFold.LuOriLu32, s, map[], false);
            var s2 := ConstFold.Pass(ConstFold.LuOri, s1, map[], false);
            var s3 := StackRuns.Pass(StackRuns.Push, s2);
            && ConstFold.Unrelocated(ConstFold.LuOriLu32, s, map[], false)
            && ConstFold.Unrelocated(ConstFold.LuOri, s1, map[], false)
            && StackPasses.Trackable(StackRuns.Push, s2) && StackPasses.Trackable(StackRuns.Pop, s3)
            && AllPasses(s) == RemoveNon.DropNops(StackRuns.Pass(StackRuns.Pop, s3))
  {
  }

  // ----- the whole of it -----

  /** Block d is what the optimiser leaves of b: es leads to c, tail removal to e, repair to d. */
  ghost predicate Optimised(b: Block, es: seq<Edit>, c: Block, t: bool, f: bool, e: Block, d: Block) {
    && Leads(b, es, c) && Shaped(b) && Shaped(c) && Shaped(e) && Slots(c) == AllPasses(Slots(b))
    && NopsOnly(Slots(b), es, |Slots(b)| - FirstStop(Slots(b)))
    && RemoveTail.Trimmed(c, t, f, e) && Repaired(e, t, f, d)
  }

  /** A two-exit block whose branch is aimed right: it arrives at the same exit in the same state. */
  lemma TwoExitsArrive<M(!new)>(m: Machine<M>, b: Block, q: nat, es: seq<Edit>, c: Block, t: bool, f: bool, e: Block,
                                d: Block, st: State<M>)
    requires Optimised(b, es, c, t, f, e, d) && WritesOnlyDst(m) && Optimisable(Slots(b))
    requires TwoExits(b, q) && q < |b.code| && BneAimed(b, q) && FrontStays(b, t, f)
    ensures Shaped(d) && SameExit(m, b, d, st)
  {
    hide TwoExits, Slots, SameExit, Leads, AllPasses, BneAimed, Optimisable, WritesOnlyDst, Outcome, Repaired,
         RemoveTail.Trimmed, FrontStays, NopsOnly;
    AllPassesOutcome(m, Slots(b), st);
    OptimisedBlock(m, b, q, es, c, t, f, e, d, st);
  }

  /** From state st both blocks arrive at their first B in the same state, and it is still the exit if it
      was. */
  ghost predicate SameEnd<M>(m: Machine<M>, b: Block, x: nat, d: Block, st: State<M>)
    requires Shaped(b)
  {
    && Shaped(d) && d.reset == b.reset && d.bs != [] && OneWay(d, d.bs[0]) && SameWay(m, b, x, d, d.bs[0], st)
    && forall w :: 0 <= w < 2 && ValidExit(b, w) && b.target[w] / 4 == x ==> d.target[w] / 4 == d.bs[0]
  }

  lemma OneWayArrives<M(!new)>(m: Machine<M>, b: Block, x: nat, es: seq<Edit>, c: Block, t: bool, f: bool, e: Block,
                               d: Block, st: State<M>)
    requires Optimised(b, es, c, t, f, e, d) && WritesOnlyDst(m) && Optimisable(Slots(b)) && OneWay(b, x)
    requires WayStays(b, x, t, f)
    ensures SameEnd(m, b, x, d, st)
  {
    hide Slots, SameWay, Leads, AllPasses, Optimisable, WritesOnlyDst, RunPrefix, Repaired, RemoveTail.Trimmed,
         WayStays, NopsOnly, Track, RefsOk, BranchExact;
    AllPassesState(m, Slots(b), st);
    OneWayBlock(m, b, x, es, c, t, f, e, d, st);
    OneWayCode(d, Track(es, x));
  }

  /** No removable nop lies between positions x and r. */
  ghost predicate NoNops(b: Block, x: nat, r: nat)
    requires Shaped(b)
  {
    forall k :: x < k < r && k < |b.code| ==> !RemoveNon.Removable(Slots(b)[k])
  }

  /** Exit w without a linked successor led to its stub j.  It does afterwards if and only if the other
      exit is linked or there was no nop to remove in between; and if the tail that goes takes
      the stub along, there is none behind it and its B is as it was. */
  ghost predicate ExitKept(b: Block, w: nat, j: nat, t: bool, f: bool, d: Block)
    requires Shaped(b) && w < 2 && j < |b.rels| && b.target[w] / 4 < |b.code|
  {
    && Shaped(d) && |d.live| == |b.live| && d.target[w] / 4 < |d.code|
    && (d.live[j] <==> !CutOff(b, t, w, j))
    && (d.live[j] ==> (LeadsTo(d, w, j) <==> (t || f) || NoNops(b, b.target[w] / 4, b.rels[j].tcOffset / 4)))
    && (!d.live[j] ==> NoCandidate(d, d.target[w]) && d.code[d.target[w] / 4] == b.code[b.target[w] / 4])
  }

  lemma ExitOptimised(b: Block, es: seq<Edit>, c: Block, t: bool, f: bool, e: Block, d: Block, w: nat, j: nat)
    requires Optimised(b, es, c, t, f, e, d) && Wf(b) && !RemoveTail.LosesExit(b, t)
    requires Unlinked(b, w, t, f) && Nearest(b, j, b.target[w]) && LeadsTo(b, w, j)
    ensures ExitKept(b, w, j, t, f, d)
  {
    hide RelsFit, RelsApart, BranchExact, Leads, AllPasses, NopsOnly, Track, CutOff, NoCandidate, Repaired,
         RemoveTail.Trimmed, RemoveTail.LosesExit, NoNops;
    ExitAtLast(b, es, c, t, f, e, d, w, j);
    GapShrinks(b, es, w, j);
  }

  lemma GapShrinks(b: Block, es: seq<Edit>, w: nat, j: nat)
    requires Wf(b) && w < 2 && ValidExit(b, w) && Nearest(b, j, b.target[w])
    requires NopsOnly(Slots(b), es, |Slots(b)| - FirstStop(Slots(b)))
    ensures j < |b.rels|
    ensures var x, r := b.target[w] / 4, b.rels[j].tcOffset / 4;
            Track(es, r) - Track(es, x) == r - x <==> NoNops(b, x, r)
  {
    hide *;
    var x, r := GapEnds(b, w, j);
    GapCounted(Slots(b), es, x, r);
    RemoveNon.DropAll(Slots(b)[x..r]);
    NoNopsIs(b, x, r);
  }

  /** The exit and its stub: neither is a nop that could go, and the first branch is not behind the exit. */
  lemma GapEnds(b: Block, w: nat, j: nat) returns (x: nat, r: nat)
    requires Wf(b) && w < 2 && ValidExit(b, w) && Nearest(b, j, b.target[w])
    ensures Shaped(b) && j < |b.rels| && x == b.target[w] / 4 && r == b.rels[j].tcOffset / 4 && x <= r < |b.code|
    ensures FirstStop(Slots(b)) <= x && !RemoveNon.Removable(Slots(b)[x]) && !RemoveNon.Removable(Slots(b)[r])
  {
    hide RelsApart, BranchExact, FirstStop;
    assert ExitOk(b, w) && RelFits(b.rels[j], |b.code|) && b.live[j];
    x, r := b.target[w] / 4, b.rels[j].tcOffset / 4;
    assert Covers(b.rels[j], r) && Slots(b)[r].pinned && Slots(b)[x].insn.opc == B;
    assert StopsPass(Slots(b)[x].insn.opc);
  }

  lemma GapCounted(s: seq<Slot>, es: seq<Edit>, x: nat, r: nat)
    requires NopsOnly(s, es, |s| - FirstStop(s)) && FirstStop(s) <= x <= r < |s|
    requires !RemoveNon.Removable(s[x]) && !RemoveNon.Removable(s[r])
    ensures Track(es, r) - Track(es, x) == |RemoveNon.DropNops(s[x..r])|
  {
    hide Track, RemoveNon.DropNops, FirstStop, RemoveNon.Removable;
  }

  lemma NoNopsIs(b: Block, x: nat, r: nat)
    requires Shaped(b) && x <= r < |b.code| && !RemoveNon.Removable(Slots(b)[x])
    ensures NoNops(b, x, r) <==> forall k :: 0 <= k < |Slots(b)[x..r]| ==> !RemoveNon.Removable(Slots(b)[x..r][k])
  {
    hide RemoveNon.Removable;
    var s := Slots(b);
    assert forall k :: x <= k < r ==> s[x..r][k - x] == s[k];
  }

  // ----- the method -----

  /** What fix_bne relies on: with two exits the false one comes first, and a BNE in front of it. */
  predicate BneInFront(b: Block)
    requires Shaped(b)
  {
    ValidExit(b, 0) && ValidExit(b, 1) ==> b.target[0] < b.target[1] && b.bnes != [] && 4 * b.bnes[0] < b.target[0]
  }

  lemma BneLater(b: Block, es: seq<Edit>, c: Block)
    requires Wf(b) && Leads(b, es, c) && BneInFront(b)
    ensures Shaped(c) && BneInFront(c)
  {
    hide Leads, RelsFit, RelsApart, BranchExact, Track;
    LeadsWf(b, es, c);
    LeadsBranches(b, es, c);
    if ValidExit(b, 0) && ValidExit(b, 1) {
      LeadsExit(b, es, c, 0);
      LeadsExit(b, es, c, 1);
      assert ExitOk(b, 0) && ExitOk(b, 1) && ExitOk(c, 0) && ExitOk(c, 1);
      TrackOrder(es, b.bnes[0], b.target[0] / 4);
      TrackOrder(es, b.target[0] / 4, b.target[1] / 4);
    }
  }

  lemma BneTrim(b: Block, w: nat)
    requires Wf(b) && BneInFront(b) && ValidExit(b, 0) && ValidExit(b, 1) && w < 2
    ensures b.target[w] / 4 + 1 <= |b.code| && b.target[w] / 4 + 1 + RemoveTail.Remain(b, w) <= |b.code|
    ensures Wf(RemoveTail.Trim(b, w)) && BneInFront(RemoveTail.Trim(b, w)) && RemoveTail.Trim(b, w).reset == b.reset
  {
    hide RelsFit, RelsApart, BranchExact, Positions;
    RemoveTail.TrimWf(b, w);
    var c, q := RemoveTail.Trim(b, w), b.bnes[0];
    BneFirst(b);
    assert ExitOk(b, 0) && ExitOk(b, 1);
    assert c.code[q] == b.code[q];
    BneListed(c, q);
  }

  lemma BneFirst(b: Block)
    requires Wf(b) && b.bnes != []
    ensures b.bnes[0] < |b.code| && b.code[b.bnes[0]].opc == BNE
  {
    PositionsSound(b.code, ClassBne, 0);
    assert b.bnes[0] in b.bnes;
  }

  lemma BneListed(b: Block, q: nat)
    requires Wf(b) && q < |b.code| && b.code[q].opc == BNE
    ensures b.bnes != [] && b.bnes[0] <= q
  {
    PositionsComplete(b.code, ClassBne, 0, q);
    PositionsSound(b.code, ClassBne, 0);
    var k :| 0 <= k < |b.bnes| && b.bnes[k] == q;
  }

  lemma BneTrimmed(b: Block, t: bool, f: bool, c: Block)
    requires Wf(b) && BneInFront(b) && RemoveTail.Trimmed(b, t, f, c) && Wf(c) && c.reset == b.reset
    ensures Shaped(c) && BneInFront(c)
  {
    hide RefsOk, BranchExact, RemoveTail.Trim;
    if ValidExit(b, 0) && ValidExit(b, 1) {
      if t && f {
        BneTrim(b, 0);
        BneTrim(RemoveTail.Trim(b, 0), 1);
      } else if f {
        BneTrim(b, 0);
      } else if t {
        BneTrim(b, 1);
      }
    }
  }

  lemma TrimmedReset(b: Block, t: bool, f: bool, c: Block)
    requires Shaped(b) && RemoveTail.Trimmed(b, t, f, c)
    ensures c.reset == b.reset
  {
  }

  lemma Conclude<M(!new)>(m: Machine<M>, b: Block, es: seq<Edit>, c: Block, t: bool, f: bool, e: Block, d: Block)
    requires Leads(b, es, c) && Wf(b) && Shaped(c) && Shaped(e) && Slots(c) == AllPasses(Slots(b))
    requires NopsOnly(Slots(b), es, |Slots(b)| - FirstStop(Slots(b)))
    requires RemoveTail.Trimmed(c, t, f, e) && Repaired(e, t, f, d)
    requires WritesOnlyDst(m) && Optimisable(Slots(b)) && !RemoveTail.LosesExit(b, t) && Shaped(d)
    ensures forall q: nat, st: State<M> :: TwoExits(b, q) && q < |b.code| && BneAimed(b, q) && FrontStays(b, t, f) ==>
              SameExit(m, b, d, st)
    ensures forall x: nat, st: State<M> :: OneWay(b, x) && WayStays(b, x, t, f) ==> SameEnd(m, b, x, d, st)
    ensures forall w: nat, j: nat :: Unlinked(b, w, t, f) && Nearest(b, j, b.target[w]) && LeadsTo(b, w, j) ==>
              ExitKept(b, w, j, t, f, d)
  {
    hide Leads, Slots, AllPasses, NopsOnly, FirstStop, RemoveTail.Trimmed, Repaired, WritesOnlyDst, Optimisable,
         TwoExits, BneAimed, FrontStays, SameExit, OneWay, WayStays, SameEnd, Nearest, ExitKept, RemoveTail.LosesExit,
         RelsFit, RelsApart, BranchExact, ExitOk;
    forall q: nat, st: State<M> | TwoExits(b, q) && q < |b.code| && BneAimed(b, q) && FrontStays(b, t, f)
      ensures SameExit(m, b, d, st)
    {
      TwoExitsArrive(m, b, q, es, c, t, f, e, d, st);
    }
    forall x: nat, st: State<M> | OneWay(b, x) && WayStays(b, x, t, f)
      ensures SameEnd(m, b, x, d, st)
    {
      OneWayArrives(m, b, x, es, c, t, f, e, d, st);
    }
    forall w: nat, j: nat | Unlinked(b, w, t, f) && Nearest(b, j, b.target[w]) && LeadsTo(b, w, j)
      ensures ExitKept(b, w, j, t, f, d)
    {
      ExitOptimised(b, es, c, t, f, e, d, w, j);
    }
  }

  /** The optimiser on any block, with any successors linked: what a block with two exits or fewer computes
      stays the same, and where an exit without successor leads is stated exactly. */
  method Optimise<M(!new)>(tb: TB, ghost m: Machine<M>)
    requires tb.Valid() && Wf(tb.View()) && Optimisable(Slots(tb.View())) && WritesOnlyDst(m)
    requires BneInFront(tb.View())
    modifies tb`rels, tb`relsValid, tb`jmpTarget, tb`bInsns, tb`bneInsns, tb`otherBInsns, tb.insns, tb.insns.Repr
    ensures tb.Valid()
    ensures var b, t, f := old(tb.View()), tb.trueBranch != null, tb.falseBranch != null;
            && (forall q: nat, st: State<M> ::
                  TwoExits(b, q) && q < |b.code| && BneAimed(b, q) && FrontStays(b, t, f) ==>
                  SameExit(m, b, tb.View(), st))
            && (forall x: nat, st: State<M> :: OneWay(b, x) && WayStays(b, x, t, f) ==> SameEnd(m, b, x, tb.View(), st))
            && (forall w: nat, j: nat :: Unlinked(b, w, t, f) && Nearest(b, j, b.target[w]) && LeadsTo(b, w, j) ==>
                  ExitKept(b, w, j, t, f, tb.View()))
  {
    hide *;
    ghost var b, t, f := tb.View(), tb.trueBranch != null, tb.falseBranch != null;
    NoneLost(b, t);
    ghost var es := RunPasses(tb);
    ghost var c := tb.View();
    LosesAfterEdits(b, es, c, t);
    BneLater(b, es, c);
    RemoveTail.Visit(tb);
    ghost var e := tb.View();
    TrimmedReset(c, t, f, e);
    BneTrimmed(c, t, f, e);
    BneThere(e);
    FixBranch.Visit(tb);
    Conclude(m, b, es, c, t, f, e, tb.View());
  }

  lemma NoneLost(b: Block, t: bool)
    requires Shaped(b) && BneInFront(b)
    ensures !RemoveTail.LosesExit(b, t)
  {
  }

  lemma BneThere(b: Block)
    requires Shaped(b) && BneInFront(b)
    ensures ValidExit(b, 0) && ValidExit(b, 1) ==> b.bnes != []
  {
  }
}
