/** Blocks with one way out, or none: what they compute up to their first B, and that the passes, tail
    removal and branch repair preserve it. */
module OneWays {
  import opened Isa
  import opened Blocks
  import opened SlotViews
  import opened Edits
  import opened BlockRuns
  import opened BlockMeanings
  import FixBranch
  import RemoveTail
  import TailMeanings

  /** At most one exit is valid, and nothing but plain code is in front of the first B, at x. */
  ghost predicate OneWay(b: Block, x: nat) {
    && Wf(b) && !(ValidExit(b, 0) && ValidExit(b, 1)) && b.bs != [] && b.bs[0] == x
    && forall i :: 0 <= i < x && i < |b.code| ==> ClassOf(b.code[i].opc) == NotBranch
  }

  /** Every block available for peephole optimisation that has not two exits is one. */
  lemma AvailableOneWay(b: Block)
    requires Wf(b) && Available(b) && !(ValidExit(b, 0) && ValidExit(b, 1))
    ensures OneWay(b, b.bs[0])
  {
    PositionsSound(b.code, ClassB, 0);
    forall i | 0 <= i < b.bs[0] && i < |b.code|
      ensures ClassOf(b.code[i].opc) == NotBranch
    {
      if ClassOf(b.code[i].opc) == ClassB { FirstListed(b, i); }
      if ClassOf(b.code[i].opc) == ClassBne { PositionsComplete(b.code, ClassBne, 0, i); }
      if ClassOf(b.code[i].opc) == ClassOther { PositionsComplete(b.code, ClassOther, 0, i); }
    }
  }

  lemma OneWayCode(b: Block, x: nat)
    requires OneWay(b, x)
    ensures Shaped(b) && x < |b.code| && b.code[x].opc == B && !(ValidExit(b, 0) && ValidExit(b, 1))
    ensures forall i :: 0 <= i < x ==> ClassOf(b.code[i].opc) == NotBranch
    ensures forall w :: 0 <= w < 2 && ValidExit(b, w) ==> b.target[w] % 4 == 0 && x <= b.target[w] / 4 < |b.code|
  {
    hide RelsFit, RelsApart;
    PositionsSound(b.code, ClassB, 0);
    assert x in b.bs;
    forall w | 0 <= w < 2 && ValidExit(b, w)
      ensures b.target[w] % 4 == 0 && x <= b.target[w] / 4 < |b.code|
    {
      assert ExitOk(b, w);
      FirstListed(b, b.target[w] / 4);
    }
  }

  /** Both runs reach the first B of their block, step by step, in the same state. */
  ghost predicate SameWay<M>(m: Machine<M>, b: Block, x: nat, d: Block, x': nat, st: State<M>)
    requires Shaped(b) && Shaped(d)
  {
    && (forall i :: 0 <= i <= x ==> Steps(m, Slots(b), Config(0, st), i).pc == i)
    && (forall i :: 0 <= i <= x' ==> Steps(m, Slots(d), Config(0, st), i).pc == i)
    && Steps(m, Slots(b), Config(0, st), x).st == Steps(m, Slots(d), Config(0, st), x').st
  }

  lemma WayReached<M>(m: Machine<M>, b: Block, x: nat, st: State<M>, i: nat)
    requires OneWay(b, x) && i <= x
    ensures Shaped(b) && x < |b.code|
    ensures Steps(m, Slots(b), Config(0, st), i) == Config(i, ExecAll(m, Slots(b)[..i], st))
    ensures RunPrefix(m, Slots(b), st).0 == ExecAll(m, Slots(b)[..x], st)
  {
    hide OneWay, RunPrefix, Steps, ExecAll;
    OneWayCode(b, x);
    PlainSteps(m, Slots(b), 0, x, st, i);
    assert Slots(b)[0..i] == Slots(b)[..i];
    PrefixSplit(m, Slots(b), x, st);
  }

  // ----- edits -----

  lemma OneWayLater(b: Block, es: seq<Edit>, c: Block, x: nat)
    requires OneWay(b, x) && Leads(b, es, c)
    ensures OneWay(c, Track(es, x)) && Untouched(es, x)
  {
    hide Leads, RelsFit, RelsApart;
    LeadsWf(b, es, c);
    LeadsBranches(b, es, c);
    forall i | 0 <= i < Track(es, x) && i < |c.code|
      ensures ClassOf(c.code[i].opc) == NotBranch
    {
      if ClassOf(c.code[i].opc) == ClassB { var k := ListedBehind(b.code, c.code, ClassB, es, x, i); }
      if ClassOf(c.code[i].opc) == ClassBne { var k := ListedBehind(b.code, c.code, ClassBne, es, x, i); }
      if ClassOf(c.code[i].opc) == ClassOther { var k := ListedBehind(b.code, c.code, ClassOther, es, x, i); }
    }
  }

  // ----- tails -----

  predicate LinkedAt(w: nat, t: bool, f: bool) { if w == 1 then t else f }

  /** No live relocation on a slot up to the first B reaches into a tail that is removed. */
  ghost predicate WayStays(b: Block, x: nat, t: bool, f: bool)
    requires Shaped(b)
  {
    forall w :: 0 <= w < 2 && ValidExit(b, w) && LinkedAt(w, t, f) ==> InFrontOf(b, x, w)
  }

  ghost predicate InFrontOf(b: Block, x: nat, w: nat)
    requires Shaped(b) && w < 2
  {
    forall j :: 0 <= j < |b.rels| && b.live[j] && b.rels[j].tcOffset <= 4 * x ==>
      b.rels[j].tcOffset + 4 * b.rels[j].slots <= b.target[w] + 4
  }

  lemma WayStaysLater(b: Block, es: seq<Edit>, c: Block, x: nat, t: bool, f: bool)
    requires OneWay(b, x) && Leads(b, es, c) && WayStays(b, x, t, f)
    ensures Shaped(c) && WayStays(c, Track(es, x), t, f)
  {
    hide Leads, RelsApart, BranchExact, Track;
    LeadsWf(b, es, c);
    OneWayLater(b, es, c, x);
    forall w, j | 0 <= w < 2 && ValidExit(c, w) && LinkedAt(w, t, f) &&
                  0 <= j < |c.rels| && c.live[j] && c.rels[j].tcOffset <= 4 * Track(es, x)
      ensures c.rels[j].tcOffset + 4 * c.rels[j].slots <= c.target[w] + 4
    {
      assert InFrontOf(b, x, w);
      assert RelFits(b.rels[j], |b.code|) && RelFits(c.rels[j], |c.code|);
      LeadsRel(b, es, c, j, 0);
      TrackAtMost(es, b.rels[j].tcOffset / 4, x);
      EndsLater(b, es, c, j, w);
    }
  }

  /** Block d agrees with b in front of its first B, at the same place, and in its exit. */
  ghost predicate SameStart(b: Block, x: nat, d: Block) {
    && Shaped(b) && OneWay(d, x) && x < |b.code| && x < |d.code|
    && d.reset == b.reset && (forall w :: 0 <= w < 2 && ValidExit(b, w) ==> d.target[w] == b.target[w])
    && forall i :: 0 <= i < x ==> Slots(d)[i] == Slots(b)[i]
  }

  lemma SameStartMeaning<M>(m: Machine<M>, b: Block, x: nat, d: Block, st: State<M>)
    requires OneWay(b, x) && SameStart(b, x, d)
    ensures RunPrefix(m, Slots(d), st).0 == RunPrefix(m, Slots(b), st).0
  {
    hide OneWay, RunPrefix;
    WayReached(m, b, x, st, x);
    WayReached(m, d, x, st, x);
    assert Slots(d)[..x] == Slots(b)[..x];
  }

  lemma WayTrimmed(b: Block, x: nat, t: bool, f: bool, c: Block)
    requires OneWay(b, x) && WayStays(b, x, t, f) && RemoveTail.Trimmed(b, t, f, c)
    ensures SameStart(b, x, c)
  {
    hide OneWay, RelsFit, RelsApart, Covered, Overlaps, RemoveTail.Trim;
    OneWayCode(b, x);
    if ValidExit(b, 0) && f {
      WayCut(b, x, 0);
    } else if ValidExit(b, 1) && t {
      WayCut(b, x, 1);
    }
  }

  lemma WayCut(b: Block, x: nat, w: nat)
    requires OneWay(b, x) && Shaped(b) && w < 2 && ValidExit(b, w) && InFrontOf(b, x, w)
    ensures b.target[w] / 4 + 1 <= |b.code| && b.target[w] / 4 + 1 + RemoveTail.Remain(b, w) <= |b.code|
    ensures SameStart(b, x, RemoveTail.Trim(b, w))
  {
    hide RelsFit, RelsApart, Covered, RemoveTail.Trim, Cut, BranchExact;
    OneWayCode(b, x);
    RemoveTail.TrimWf(b, w);
    TailMeanings.TrimIsCut(b, w);
    var p, n := b.target[w] / 4 + 1, RemoveTail.Remain(b, w);
    forall i | 0 <= i <= x
      ensures Slots(Cut(b, p, n))[i] == Slots(b)[i]
    {
      CutFront(b, p, n, i);
    }
    var c := RemoveTail.Trim(b, w);
    assert forall i :: 0 <= i <= x ==> Slots(c)[i].insn == c.code[i] && Slots(b)[i].insn == b.code[i];
    FirstB(b, x, c);
  }

  /** With the same code up to the first B that is the first B. */
  lemma FirstB(b: Block, x: nat, c: Block)
    requires OneWay(b, x) && Wf(c) && Shaped(b) && Shaped(c) && c.reset == b.reset && x < |b.code| && x < |c.code|
    requires c.code[x].opc == B && forall i :: 0 <= i < x ==> c.code[i] == b.code[i]
    ensures OneWay(c, x)
  {
    hide RefsOk;
    FirstListed(c, x);
    PositionsSound(c.code, ClassB, 0);
    var y := c.bs[0];
    assert y in c.bs && ClassOf(c.code[y].opc) == ClassB;
  }

  // ----- repair -----

  lemma WayRepaired(b: Block, x: nat, t: bool, f: bool, d: Block)
    requires OneWay(b, x) && FixBranch.Repaired(b, t, f, d)
    ensures SameStart(b, x, d)
  {
    hide OneWay, RelsFit, RelsApart, BranchExact, Covered, FixBranch.NoCandidate;
    OneWayCode(b, x);
    if d != b {
      var w := if !f && ValidExit(b, 0) then 0 else 1;
      var j :| FixBranch.Nearest(b, j, b.target[w]) && d == FixBranch.Aimed(b, b.target[w] / 4, b.rels[j].tcOffset / 4);
      WayAimed(b, x, b.target[w] / 4, b.rels[j].tcOffset / 4);
    }
  }

  lemma WayAimed(b: Block, x: nat, p: nat, y: nat)
    requires OneWay(b, x) && x <= p < |b.code|
    ensures SameStart(b, x, FixBranch.Aimed(b, p, y))
  {
    hide RelsFit, RelsApart, BranchExact, Covered, ExitOk;
    OneWayCode(b, x);
    FixBranch.AimedWf(b, p, y);
    AimedCovered(b, FixBranch.Aimed(b, p, y));
    FirstB(b, x, FixBranch.Aimed(b, p, y));
  }

  // ----- all of it -----

  lemma ExitCarried(b: Block, es: seq<Edit>, c: Block, x: nat, w: nat)
    requires OneWay(b, x) && Leads(b, es, c) && w < 2 && Shaped(b) && ValidExit(b, w)
    ensures Shaped(c) && c.reset == b.reset && c.target[w] / 4 == Track(es, b.target[w] / 4)
  {
    hide Leads;
    LeadsExit(b, es, c, w);
  }

  lemma SameReset(b: Block, es: seq<Edit>, c: Block, x: nat)
    requires OneWay(b, x) && Leads(b, es, c)
    ensures c.reset == b.reset
  {
    hide Leads;
    LeadsWf(b, es, c);
  }

  /** Any history of passes that preserve the state at the first B, then tail removal, then repair. */
  lemma OneWayBlock<M>(m: Machine<M>, b: Block, x: nat, es: seq<Edit>, c: Block, t: bool, f: bool, e: Block, d: Block,
                       st: State<M>)
    requires OneWay(b, x) && WayStays(b, x, t, f) && Leads(b, es, c)
    requires Shaped(c) && RunPrefix(m, Slots(c), st).0 == RunPrefix(m, Slots(b), st).0
    requires RemoveTail.Trimmed(c, t, f, e) && Shaped(e) && FixBranch.Repaired(e, t, f, d)
    ensures OneWay(d, Track(es, x)) && SameWay(m, b, x, d, Track(es, x), st) && d.reset == b.reset
    ensures forall w :: 0 <= w < 2 && ValidExit(b, w) && b.target[w] / 4 == x ==> d.target[w] / 4 == Track(es, x)
  {
    hide OneWay, WayStays, Leads, RunPrefix, Slots, Steps, RemoveTail.Trimmed, FixBranch.Repaired, Track;
    var x' := Track(es, x);
    OneWayLater(b, es, c, x);
    WayStaysLater(b, es, c, x, t, f);
    WayTrimmed(c, x', t, f, e);
    SameStartMeaning(m, c, x', e, st);
    WayRepaired(e, x', t, f, d);
    SameStartMeaning(m, e, x', d, st);
    OneWayCode(b, x);
    OneWayCode(d, x');
    forall w | 0 <= w < 2 && ValidExit(b, w)
      ensures d.reset == b.reset && d.target[w] / 4 == Track(es, b.target[w] / 4)
    {
      ExitCarried(b, es, c, x, w);
    }
    SameReset(b, es, c, x);
    forall i | 0 <= i <= x
      ensures Steps(m, Slots(b), Config(0, st), i).pc == i
    {
      WayReached(m, b, x, st, i);
    }
    forall i | 0 <= i <= x'
      ensures Steps(m, Slots(d), Config(0, st), i).pc == i
    {
      WayReached(m, d, x', st, i);
    }
    WayReached(m, b, x, st, x);
    WayReached(m, d, x', st, x');
  }
}
