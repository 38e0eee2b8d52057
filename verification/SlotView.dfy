/** The slots of a block: its instructions, each marked with whether a live relocation
    covers it.  The passes are specified on this sequence. */
module SlotViews {
  import opened Isa
  import opened Blocks
  import opened Edits

  ghost function Slots(b: Block): (s: seq<Slot>)
    requires Shaped(b)
    ensures |s| == |b.code|
    ensures forall q :: 0 <= q < |s| ==> s[q] == Slot(b.code[q], Covered(b, q))
  {
    seq(|b.code|, q requires 0 <= q < |b.code| => Slot(b.code[q], Covered(b, q)))
  }

  /** Nothing refers to position p: it may be rewritten or deleted. */
  lemma FreeOne(b: Block, p: nat)
    requires Wf(b) && p < |b.code| && ClassOf(b.code[p].opc) == NotBranch && !Slots(b)[p].pinned
    ensures Free(b, p, 1)
  {
    forall j | 0 <= j < |b.rels| && b.live[j]
      ensures !Overlaps(b.rels[j], p, 1)
    {
      assert RelFits(b.rels[j], |b.code|);
      assert !Covers(b.rels[j], p);
    }
    forall w | 0 <= w < 2 && ValidExit(b, w)
      ensures b.target[w] / 4 != p
    {
      assert ExitOk(b, w);
    }
  }

  lemma FreeSlots(b: Block, lo: nat, n: nat)
    requires Wf(b) && lo + n <= |b.code|
    requires forall q :: lo <= q < lo + n ==> ClassOf(b.code[q].opc) == NotBranch && !Slots(b)[q].pinned
    ensures Free(b, lo, n)
  {
    forall j | 0 <= j < |b.rels| && b.live[j]
      ensures !Overlaps(b.rels[j], lo, n)
    {
      var r := b.rels[j];
      assert RelFits(r, |b.code|);
      var q := if r.tcOffset / 4 < lo then lo else r.tcOffset / 4;
      assert Overlaps(r, lo, n) ==> lo <= q < lo + n && Covers(r, q) && Slots(b)[q].pinned;
    }
    forall w | 0 <= w < 2 && ValidExit(b, w)
      ensures !(lo <= b.target[w] / 4 < lo + n)
    {
      assert ExitOk(b, w);
    }
  }

  lemma SlotsSet(b: Block, p: nat, i: Insn)
    requires Shaped(b) && p < |b.code|
    ensures Slots(Overwrite(b, p, i)) == Slots(b)[p := Slots(b)[p].(insn := i)]
  {
    forall q | 0 <= q < |b.code|
      ensures Covered(Overwrite(b, p, i), q) == Covered(b, q)
    {
    }
  }

  lemma CoveredAfterCut(b: Block, p: nat, n: nat, q: nat)
    requires RefsOk(b) && p + n <= |b.code| && q < |b.code| && !(p <= q < p + n)
    requires forall j :: 0 <= j < |b.rels| && b.live[j] ==> !Overlaps(b.rels[j], p, n)
    ensures Covered(Cut(b, p, n), Clamp(q, p, n)) == Covered(b, q)
  {
    var c := Cut(b, p, n);
    forall j | 0 <= j < |b.rels| && b.live[j]
      ensures c.live[j] && Covers(c.rels[j], Clamp(q, p, n)) == Covers(b.rels[j], q)
    {
      assert RelFits(b.rels[j], |b.code|);
    }
  }

  lemma SlotsCut(b: Block, p: nat, n: nat)
    requires RefsOk(b) && p + n <= |b.code|
    requires forall j :: 0 <= j < |b.rels| && b.live[j] ==> !Overlaps(b.rels[j], p, n)
    ensures Slots(Cut(b, p, n)) == Slots(b)[..p] + Slots(b)[p + n..]
  {
    hide RelsFit, RelsApart, ExitsAligned, Covered, Overlaps;
    var s, t := Slots(b), Slots(Cut(b, p, n));
    forall q | 0 <= q < |t|
      ensures t[q] == (s[..p] + s[p + n..])[q]
    {
      CoveredAfterCut(b, p, n, if q < p then q else q + n);
    }
  }

  /** Cutting a free region: the block stays well formed and the slots outside are the same. */
  lemma FreeCut(b: Block, p: nat, n: nat)
    requires Wf(b) && Free(b, p, n)
    ensures Wf(Cut(b, p, n)) && Slots(Cut(b, p, n)) == Slots(b)[..p] + Slots(b)[p + n..]
  {
    CutWf(b, p, n);
    SlotsCut(b, p, n);
  }

  // ----- cutting through relocations -----

  lemma CoveredCut(b: Block, p: nat, n: nat, q: nat)
    requires RefsOk(b) && p + n <= |b.code| && q < |b.code| && !(p <= q < p + n)
    ensures Covered(Cut(b, p, n), Clamp(q, p, n)) <==>
              exists j :: 0 <= j < |b.rels| && b.live[j] && !Overlaps(b.rels[j], p, n) && Covers(b.rels[j], q)
  {
    var c := Cut(b, p, n);
    forall j | 0 <= j < |b.rels| && b.live[j] && !Overlaps(b.rels[j], p, n)
      ensures c.live[j] && Covers(c.rels[j], Clamp(q, p, n)) == Covers(b.rels[j], q)
    {
      assert RelFits(b.rels[j], |b.code|);
    }
  }

  /** A relocation with slots both inside and outside the range. */
  predicate Torn(r: Rel, p: nat, n: nat) {
    Overlaps(r, p, n) && !(4 * p <= r.tcOffset && r.tcOffset + 4 * r.slots <= 4 * (p + n))
  }

  ghost predicate NoneTorn(b: Block, p: nat, n: nat)
    requires Shaped(b)
  {
    forall j :: 0 <= j < |b.rels| && b.live[j] ==> !Torn(b.rels[j], p, n)
  }

  lemma OneCovers(b: Block, j: nat, k: nat, q: nat)
    requires RefsOk(b) && j < |b.rels| && k < |b.rels| && b.live[j] && b.live[k] && Covers(b.rels[j], q)
    requires Covers(b.rels[k], q)
    ensures j == k
  {
    if j < k {
      ApartCovers(b, j, k, q);
    } else if k < j {
      ApartCovers(b, k, j, q);
    }
  }

  lemma ApartCovers(b: Block, j: nat, k: nat, q: nat)
    requires RefsOk(b) && j < k < |b.rels| && b.live[j] && b.live[k]
    ensures !(Covers(b.rels[j], q) && Covers(b.rels[k], q))
  {
    assert Apart(b.rels[j], b.rels[k]);
  }

  /** A cut leaves the other slots as they are, marks included, if and only if it tears no live
      relocation: a torn one is killed while some of its slots stay behind. */
  lemma CutSlots(b: Block, p: nat, n: nat)
    requires RefsOk(b) && p + n <= |b.code|
    ensures Slots(Cut(b, p, n)) == Slots(b)[..p] + Slots(b)[p + n..] <==> NoneTorn(b, p, n)
  {
    hide RefsOk, Covered;
    CutShaped(b, p, n);
    var s, t := Slots(b), Slots(Cut(b, p, n));
    if NoneTorn(b, p, n) {
      forall q | 0 <= q < |t|
        ensures t[q] == (s[..p] + s[p + n..])[q]
      {
        WholeKept(b, p, n, if q < p then q else q + n);
      }
      assert t == s[..p] + s[p + n..];
    } else {
      var j :| 0 <= j < |b.rels| && b.live[j] && Torn(b.rels[j], p, n);
      var q := TornShows(b, p, n, j);
      assert s[q].pinned && !t[Clamp(q, p, n)].pinned;
      assert (s[..p] + s[p + n..])[Clamp(q, p, n)] == s[q];
    }
  }

  lemma CutShaped(b: Block, p: nat, n: nat)
    requires RefsOk(b) && p + n <= |b.code|
    ensures Shaped(b) && Shaped(Cut(b, p, n))
  {
  }

  lemma WholeKept(b: Block, p: nat, n: nat, q: nat)
    requires RefsOk(b) && p + n <= |b.code| && q < |b.code| && !(p <= q < p + n) && NoneTorn(b, p, n)
    ensures Covered(Cut(b, p, n), Clamp(q, p, n)) == Covered(b, q)
  {
    hide Cut;
    CoveredCut(b, p, n, q);
    forall j | 0 <= j < |b.rels| && b.live[j] && Covers(b.rels[j], q)
      ensures !Overlaps(b.rels[j], p, n)
    {
      assert !Torn(b.rels[j], p, n);
    }
  }

  /** A torn relocation is missed at one of its slots that stay. */
  lemma TornShows(b: Block, p: nat, n: nat, j: nat) returns (q: nat)
    requires RefsOk(b) && p + n <= |b.code| && j < |b.rels| && b.live[j] && Torn(b.rels[j], p, n)
    ensures q < |b.code| && !(p <= q < p + n) && Covered(b, q) && !Covered(Cut(b, p, n), Clamp(q, p, n))
  {
    hide Cut;
    var r := b.rels[j];
    assert RelFits(r, |b.code|);
    q := if r.tcOffset < 4 * p then p - 1 else p + n;
    assert Covers(r, q);
    CoveredCut(b, p, n, q);
    forall k | 0 <= k < |b.rels| && b.live[k] && Covers(b.rels[k], q)
      ensures Overlaps(b.rels[k], p, n)
    {
      OneCovers(b, j, k, q);
    }
  }
}
