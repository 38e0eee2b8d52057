/** What tail removal does to the code with its relocation marks. */
module TailMeanings {
  import opened Isa
  import opened Blocks
  import opened SlotViews
  import opened RemoveTail

  /** A relocation with slots both in a removed tail and outside of them. */
  ghost predicate TornByTails(b: Block, r: Rel)
    requires Shaped(b)
  {
    TouchesTails(b, r) && exists q :: 0 <= q < |b.code| && !InTails(b, q) && Covers(r, q)
  }

  /** The slots that stay when both tails go. */
  ghost function BothKept(b: Block): seq<Slot>
    requires Shaped(b) && b.target[0] / 4 < b.target[1] / 4 < |b.code|
  {
    Slots(b)[..b.target[0] / 4 + 1] + [Slots(b)[b.target[1] / 4]]
  }

  lemma TrimIsCut(b: Block, w: nat)
    requires Shaped(b) && BranchExact(b) && w < 2 && b.target[w] / 4 + 1 <= |b.code|
    requires 0 <= Remain(b, w) && b.target[w] / 4 + 1 + Remain(b, w) <= |b.code|
    ensures Trim(b, w) == Cut(b, b.target[w] / 4 + 1, Remain(b, w))
  {
    CutNothing(b, b.target[w] / 4 + 1);
  }

  /** With one tail removed the other slots stay as they are if and only if no live relocation is torn. */
  lemma OneTailSlots(b: Block, w: nat, c: Block)
    requires Wf(b) && w < 2 && TrimmedOne(b, w, c) && Remain(b, w) >= 0
    ensures Shaped(c)
    ensures var p := b.target[w] / 4 + 1;
            Slots(c) == Slots(b)[..p] + Slots(b)[p + Remain(b, w)..] <==> NoneTorn(b, p, Remain(b, w))
  {
    hide RelsFit, RelsApart, BranchExact, NoneTorn, Trim, Cut;
    TrimIsCut(b, w);
    CutSlots(b, b.target[w] / 4 + 1, Remain(b, w));
  }

  /** Both removals as two cuts. */
  lemma BothCuts(b: Block, c: Block)
    requires Wf(b) && ValidExit(b, 0) && ValidExit(b, 1) && b.target[0] < b.target[1] && TrimmedBoth(b, c)
    ensures var f, t := b.target[0] / 4, b.target[1] / 4;
            && Shaped(b) && Shaped(c) && f < t < |b.code|
            && var m := Cut(b, f + 1, t - f - 1);
               Wf(m) && Shaped(m) && RefsOk(m) && |m.code| == f + 1 + (|b.code| - t)
                 && c == Cut(m, f + 2, |b.code| - t - 1)
  {
    hide RelsFit, RelsApart, ExitsAligned, ExitOk, BranchExact, Cut, Trim;
    ExitsOrdered(b);
    var m: Block :| Shaped(m) && TrimmedOne(b, 0, m) && TrimmedOne(m, 1, c);
    TrimWf(b, 0);
    TrimIsCut(b, 0);
    TrimIsCut(m, 1);
  }

  /** Position q of the old code after both removals. */
  function KeptAt(b: Block, q: nat): nat
    requires Shaped(b)
  {
    if q <= b.target[0] / 4 then q else b.target[0] / 4 + 1
  }

  /** A live relocation that touches no removed slot covers position q. */
  ghost predicate HeldWhole(b: Block, q: nat)
    requires Shaped(b)
  {
    exists j :: 0 <= j < |b.rels| && b.live[j] && Covers(b.rels[j], q) && !TouchesTails(b, b.rels[j])
  }

  lemma CoveredKept(b: Block, c: Block, q: nat)
    requires Wf(b) && ValidExit(b, 0) && ValidExit(b, 1) && b.target[0] < b.target[1] && TrimmedBoth(b, c)
    requires q < |b.code| && !InTails(b, q)
    ensures Shaped(c) && Covered(c, KeptAt(b, q)) == HeldWhole(b, q)
  {
    hide Covered, TouchesTails, Cut, Overlaps, Covers, RelsApart, BranchExact;
    BothCuts(b, c);
    var f, t := b.target[0] / 4, b.target[1] / 4;
    var m := Cut(b, f + 1, t - f - 1);
    var q' := Clamp(q, f + 1, t - f - 1);
    CoveredCut(m, f + 2, |b.code| - t - 1, q');
    SameRels(b, f + 1, t - f - 1);
    forall j | 0 <= j < |b.rels|
      ensures b.live[j] && Covers(b.rels[j], q) && !TouchesTails(b, b.rels[j]) <==>
                m.live[j] && !Overlaps(m.rels[j], f + 2, |b.code| - t - 1) && Covers(m.rels[j], q')
    {
      KeptRel(b, m, j, q);
    }
  }

  lemma SameRels(b: Block, p: nat, n: nat)
    requires Shaped(b) && p + n <= |b.code|
    ensures |Cut(b, p, n).rels| == |b.rels| == |b.live| == |Cut(b, p, n).live|
  {
  }

  lemma KeptRel(b: Block, m: Block, j: nat, q: nat)
    requires Wf(b) && b.target[0] / 4 < b.target[1] / 4 < |b.code| && j < |b.rels| && q < |b.code| && !InTails(b, q)
    requires m == Cut(b, b.target[0] / 4 + 1, b.target[1] / 4 - b.target[0] / 4 - 1)
    ensures var f, t := b.target[0] / 4, b.target[1] / 4;
            b.live[j] && Covers(b.rels[j], q) && !TouchesTails(b, b.rels[j]) <==>
              m.live[j] && !Overlaps(m.rels[j], f + 2, |b.code| - t - 1)
                && Covers(m.rels[j], Clamp(q, f + 1, t - f - 1))
  {
    hide RelsApart, BranchExact, TouchesTails;
    var f, t, r := b.target[0] / 4, b.target[1] / 4, b.rels[j];
    if b.live[j] {
      assert RelFits(r, |b.code|);
      TouchesEither(b, r);
      OverlapTouches(b, r, f + 1, t - f - 1);
      OverlapTouches(b, r, t + 1, |b.code| - t - 1);
    }
  }

  lemma KeptSlot(b: Block, c: Block, q: nat)
    requires Wf(b) && ValidExit(b, 0) && ValidExit(b, 1) && b.target[0] < b.target[1] && TrimmedBoth(b, c)
    requires q < |b.code| && !InTails(b, q)
    ensures Shaped(c) && b.target[0] / 4 < b.target[1] / 4 < |b.code| && KeptAt(b, q) < |Slots(c)| == |BothKept(b)|
    ensures BothKept(b)[KeptAt(b, q)] == Slots(b)[q]
    ensures Slots(c)[KeptAt(b, q)] == Slot(b.code[q], HeldWhole(b, q))
  {
    hide Covered, TrimmedBoth, TouchesTails, RelsFit, RelsApart, BranchExact;
    BothTails(b, c);
    BothCuts(b, c);
    CoveredKept(b, c, q);
  }

  /** With both successors linked, tail removal leaves the code through the false exit and the true
      exit as they are, marks included, if and only if no live relocation is torn. */
  lemma BothTailsSlots(b: Block, c: Block)
    requires Wf(b) && ValidExit(b, 0) && ValidExit(b, 1) && b.target[0] < b.target[1] && TrimmedBoth(b, c)
    ensures Shaped(c) && b.target[0] / 4 < b.target[1] / 4 < |b.code|
    ensures Slots(c) == BothKept(b) <==> forall j :: 0 <= j < |b.rels| && b.live[j] ==> !TornByTails(b, b.rels[j])
  {
    hide Wf, Covered, TrimmedBoth, TouchesTails, HeldWhole, TornByTails, Covers;
    ExitsOrdered(b);
    KeptSlot(b, c, b.target[1] / 4);
    if forall j :: 0 <= j < |b.rels| && b.live[j] ==> !TornByTails(b, b.rels[j]) {
      forall i | 0 <= i < |Slots(c)|
        ensures Slots(c)[i] == BothKept(b)[i]
      {
        var q := if i <= b.target[0] / 4 then i else b.target[1] / 4;
        KeptSlot(b, c, q);
        NotTorn(b, q);
      }
      assert Slots(c) == BothKept(b);
    } else {
      var j :| 0 <= j < |b.rels| && b.live[j] && TornByTails(b, b.rels[j]);
      var q := TornOnly(b, j);
      KeptSlot(b, c, q);
    }
  }

  lemma NotTorn(b: Block, q: nat)
    requires Wf(b) && q < |b.code| && !InTails(b, q)
    requires forall j :: 0 <= j < |b.rels| && b.live[j] ==> !TornByTails(b, b.rels[j])
    ensures Covered(b, q) == HeldWhole(b, q)
  {
    hide TouchesTails;
  }

  lemma TornOnly(b: Block, j: nat) returns (q: nat)
    requires Wf(b) && j < |b.rels| && b.live[j] && TornByTails(b, b.rels[j])
    ensures q < |b.code| && !InTails(b, q) && Covered(b, q) && !HeldWhole(b, q)
  {
    hide TouchesTails;
    q :| 0 <= q < |b.code| && !InTails(b, q) && Covers(b.rels[j], q);
    forall k | 0 <= k < |b.rels| && b.live[k] && Covers(b.rels[k], q)
      ensures TouchesTails(b, b.rels[k])
    {
      OneCovers(b, j, k, q);
    }
  }
}
