/** Where the B of an exit without a linked successor leads: to the stub behind it that loads the
    address of the block, marked by a LOAD_TB_ADDR relocation.  Repair aims it there in some blocks only. */
module ExitMeanings {
  import opened Blocks
  import opened Edits
  import opened RemoveTail
  import opened FixBranch

  /** Exit w is valid and its successor is not linked. */
  predicate Unlinked(b: Block, w: nat, t: bool, f: bool)
    requires Shaped(b)
  {
    w < 2 && ValidExit(b, w) && !(if w == 1 then t else f)
  }

  // ----- edits -----

  lemma CandidateLater(b: Block, es: seq<Edit>, c: Block, w: nat, k: int)
    requires Wf(b) && Leads(b, es, c) && w < 2 && ValidExit(b, w)
    ensures Wf(c) && (Candidate(c, k, c.target[w]) <==> Candidate(b, k, b.target[w]))
  {
    hide Leads, RelsApart, BranchExact, Track;
    LeadsWf(b, es, c);
    LeadsExit(b, es, c, w);
    assert ExitOk(b, w) && ExitOk(c, w);
    if 0 <= k < |b.rels| && b.live[k] {
      assert RelFits(b.rels[k], |b.code|) && RelFits(c.rels[k], |c.code|);
      LeadsRel(b, es, c, k, 0);
      TrackAtMost(es, b.rels[k].tcOffset / 4, b.target[w] / 4);
    }
  }

  lemma NearestLater(b: Block, es: seq<Edit>, c: Block, w: nat, j: nat)
    requires Wf(b) && Leads(b, es, c) && w < 2 && ValidExit(b, w) && Nearest(b, j, b.target[w])
    ensures Wf(c) && Nearest(c, j, c.target[w])
  {
    hide Leads, RelsFit, RelsApart, BranchExact, Track;
    LeadsWf(b, es, c);
    CandidateLater(b, es, c, w, j);
    forall k | Candidate(c, k, c.target[w])
      ensures c.rels[j].tcOffset <= c.rels[k].tcOffset
    {
      CandidateLater(b, es, c, w, k);
      CandidateOrder(b, es, c, j, k, b.target[w]);
    }
  }

  lemma CandidateOrder(b: Block, es: seq<Edit>, c: Block, j: nat, k: nat, from: nat)
    requires Wf(b) && Leads(b, es, c) && Wf(c) && Candidate(b, j, from) && Candidate(b, k, from)
    requires b.rels[j].tcOffset <= b.rels[k].tcOffset
    ensures j < |c.rels| && k < |c.rels| && c.rels[j].tcOffset <= c.rels[k].tcOffset
  {
    hide Leads, RelsApart, BranchExact, Track;
    LeadsRel(b, es, c, j, 0);
    LeadsRel(b, es, c, k, 0);
    assert RelFits(b.rels[j], |b.code|) && RelFits(c.rels[j], |c.code|) && RelFits(b.rels[k], |b.code|);
    assert RelFits(c.rels[k], |c.code|);
    TrackAtMost(es, b.rels[j].tcOffset / 4, b.rels[k].tcOffset / 4);
  }

  /** After edits an exit that led to its stub still does exactly if the distance is the same. */
  lemma ExitAfterEdits(b: Block, es: seq<Edit>, c: Block, w: nat, j: nat)
    requires Wf(b) && Leads(b, es, c) && w < 2 && ValidExit(b, w) && Nearest(b, j, b.target[w]) && LeadsTo(b, w, j)
    ensures Wf(c) && ValidExit(c, w) && |c.rels| == |b.rels| && c.rels[j].slots == b.rels[j].slots
    ensures Nearest(c, j, c.target[w])
    ensures var x, r := b.target[w] / 4, b.rels[j].tcOffset / 4;
            && c.target[w] / 4 == Track(es, x) < |c.code| && c.code[Track(es, x)] == b.code[x]
            && (LeadsTo(c, w, j) <==> Track(es, r) - Track(es, x) == r - x)
  {
    hide Leads, RelsFit, RelsApart, BranchExact, Track;
    NearestLater(b, es, c, w, j);
    LeadsWf(b, es, c);
    LeadsExit(b, es, c, w);
    LeadsInsn(b, es, c, b.target[w] / 4);
    NearestSlots(b, j, b.target[w]);
    LeadsRel(b, es, c, j, 0);
  }

  lemma NearestSlots(b: Block, j: nat, from: nat)
    requires Wf(b) && Nearest(b, j, from)
    ensures j < |b.rels| && b.live[j] && b.rels[j].slots >= 1
  {
    assert RelFits(b.rels[j], |b.code|);
  }

  // ----- repair -----

  /** What repair leaves of an exit whose successor is not linked. */
  lemma RepairedOne(c: Block, t: bool, f: bool, d: Block, w: nat)
    requires Wf(c) && Repaired(c, t, f, d) && Unlinked(c, w, t, f)
    ensures Shaped(d) && d.rels == c.rels && d.live == c.live && d.target == c.target && d.reset == c.reset
    ensures c.target[w] / 4 < |c.code| == |d.code|
    ensures var x := c.target[w] / 4;
            if (t || f) && !NoCandidate(c, c.target[w]) then
              exists j :: Nearest(c, j, c.target[w]) && d.code[x].offs == c.rels[j].tcOffset / 4 - x
            else d.code[x] == c.code[x]
  {
    hide RelsFit, RelsApart, BranchExact, NoCandidate, Nearest, Candidate;
    assert ExitOk(c, 0) && ExitOk(c, 1);
    var x, o := c.target[w] / 4, c.target[w];
    if ValidExit(c, 0) && ValidExit(c, 1) && c.bnes != [] { BneElsewhere(c, x); }
    var m := if ValidExit(c, 0) && ValidExit(c, 1) && c.bnes != [] && c.bnes[|c.bnes| - 1] < |c.code|
             then Aimed(c, c.bnes[|c.bnes| - 1], c.target[1] / 4) else c;
    assert m.code[x] == c.code[x];
    SameCandidates(c, m, o);
  }

  /** Repair aims it right in a block with one linked successor, and only there. */
  lemma RepairedExit(c: Block, t: bool, f: bool, d: Block, w: nat, j: nat)
    requires Wf(c) && Repaired(c, t, f, d) && Unlinked(c, w, t, f) && Nearest(c, j, c.target[w])
    ensures Shaped(d) && d.rels == c.rels && d.live == c.live && d.target == c.target && d.reset == c.reset
    ensures LeadsTo(d, w, j) <==> (t || f) || LeadsTo(c, w, j)
  {
    hide RelsFit, RelsApart, BranchExact, Repaired;
    RepairedOne(c, t, f, d, w);
    assert !NoCandidate(c, c.target[w]);
    if t || f {
      var i :| Nearest(c, i, c.target[w]) && d.code[c.target[w] / 4].offs == c.rels[i].tcOffset / 4 - c.target[w] / 4;
      assert Candidate(c, i, c.target[w]) && Candidate(c, j, c.target[w]);
    }
  }

  // ----- tails -----

  /** The relocation reaches into the true exit's tail, which is removed. */
  predicate CutOff(b: Block, t: bool, w: nat, j: nat)
    requires Shaped(b) && j < |b.rels|
  {
    w == 0 && t && ValidExit(b, 1) && b.rels[j].tcOffset + 4 * b.rels[j].slots > b.target[1] + 4
  }

  lemma TrimmedAs(c: Block, t: bool, f: bool, e: Block, w: nat)
    requires Wf(c) && Trimmed(c, t, f, e) && Unlinked(c, w, t, f)
    ensures var o := 1 - w;
            if (if o == 1 then t else f) && ValidExit(c, o) && Remain(c, o) > 0 then
              c.target[o] / 4 + 1 + Remain(c, o) <= |c.code| && e == Cut(c, c.target[o] / 4 + 1, Remain(c, o))
            else e == c
  {
    hide Wf, Cut;
  }

  /** What a cut that is not at exit w does to it. */
  lemma ExitBesideCut(c: Block, w: nat, p: nat, n: nat)
    requires Wf(c) && w < 2 && ValidExit(c, w) && p + n <= |c.code| && !(p <= c.target[w] / 4 < p + n)
    ensures var x, e := c.target[w] / 4, Cut(c, p, n);
            && x < |c.code| && c.target[w] == 4 * x && e.target[w] == 4 * (if x < p then x else x - n)
            && e.target[w] / 4 < |e.code| && e.code[e.target[w] / 4] == c.code[x]
  {
    hide RelsFit, RelsApart, BranchExact;
    assert ExitOk(c, w);
  }

  lemma RelsBesideCut(c: Block, p: nat, n: nat)
    requires Wf(c) && p + n <= |c.code|
    ensures var e := Cut(c, p, n);
            && |e.rels| == |e.live| == |c.live| == |c.rels| && e.reset == c.reset
            && forall k :: 0 <= k < |c.rels| ==>
                 && (e.live[k] <==> c.live[k] && !Overlaps(c.rels[k], p, n))
                 && (c.live[k] ==> e.rels[k] == Lowered(c.rels[k], p, n))
  {
    hide RelsFit, RelsApart, BranchExact;
  }

  /** What tail removal does, seen from an exit that keeps its tail: one cut, behind the other exit. */
  lemma OneCut(c: Block, t: bool, f: bool, e: Block, w: nat) returns (p: nat, n: nat)
    requires Wf(c) && Trimmed(c, t, f, e) && !LosesExit(c, t) && Unlinked(c, w, t, f)
    ensures Shaped(e) && Wf(e) && p + n <= |c.code| && |e.code| == |c.code| - n
    ensures |e.rels| == |e.live| == |c.live| && |e.target| == 2 && e.reset == c.reset
    ensures forall k :: 0 <= k < |c.rels| ==>
              && (e.live[k] <==> c.live[k] && !Overlaps(c.rels[k], p, n))
              && (c.live[k] ==> e.rels[k] == if n > 0 then Lowered(c.rels[k], p, n) else c.rels[k])
    ensures var x := c.target[w] / 4;
            && x < |c.code| && c.target[w] == 4 * x
            && (if w == 0 then x < p || n == 0 else p + n <= x || n == 0)
            && e.target[w] == (if w == 0 then 4 * x else 4 * (x - n)) && e.target[w] / 4 < |e.code|
            && e.code[e.target[w] / 4] == c.code[x]
    ensures w == 0 && n > 0 ==> t && ValidExit(c, 1) && 4 * p == c.target[1] + 4 && p + n == |c.code|
    ensures w == 0 && n == 0 && t && ValidExit(c, 1) ==> c.target[1] + 4 == 4 * |c.code|
  {
    hide RelsFit, RelsApart, BranchExact, Cut, Trimmed, Overlaps, Lowered;
    TrimmedWf(c, t, f, e);
    TrimmedAs(c, t, f, e, w);
    assert ExitOk(c, 0) && ExitOk(c, 1);
    var o := 1 - w;
    if (if o == 1 then t else f) && ValidExit(c, o) && Remain(c, o) > 0 {
      p, n := c.target[o] / 4 + 1, Remain(c, o);
      ExitBesideCut(c, w, p, n);
      RelsBesideCut(c, p, n);
    } else {
      p, n := 0, 0;
      NoOverlap(c);
    }
  }

  lemma NoOverlap(c: Block)
    ensures forall k :: 0 <= k < |c.rels| ==> !Overlaps(c.rels[k], 0, 0)
  {
  }

  /** What a cut that is not at the exit does to a candidate. */
  lemma CandidateCut(c: Block, t: bool, f: bool, e: Block, w: nat, k: nat)
    requires Wf(c) && Trimmed(c, t, f, e) && !LosesExit(c, t) && Unlinked(c, w, t, f) && k < |c.rels|
    ensures Shaped(e) && |e.rels| == |c.rels|
    ensures Candidate(c, k, c.target[w]) ==> (e.live[k] <==> !CutOff(c, t, w, k))
    ensures Candidate(e, k, e.target[w]) <==> Candidate(c, k, c.target[w]) && !CutOff(c, t, w, k)
    ensures Candidate(e, k, e.target[w]) ==>
              && e.rels[k].tcOffset % 4 == 0 == c.rels[k].tcOffset % 4
              && e.rels[k].tcOffset - e.target[w] == c.rels[k].tcOffset - c.target[w]
  {
    hide RelsApart, BranchExact, Trimmed, LosesExit;
    var p, n := OneCut(c, t, f, e, w);
    if c.live[k] { assert RelFits(c.rels[k], |c.code|); }
  }

  /** An exit that keeps its tail keeps its stub, unless the stub reaches into the tail that goes; then
      there is none behind it. */
  lemma TailsExit(c: Block, t: bool, f: bool, e: Block, w: nat, j: nat)
    requires Wf(c) && Trimmed(c, t, f, e) && !LosesExit(c, t) && Unlinked(c, w, t, f) && Nearest(c, j, c.target[w])
    ensures j < |c.rels| && Wf(e) && Unlinked(e, w, t, f) && |e.live| == |e.rels| == |c.rels|
    ensures e.live[j] <==> !CutOff(c, t, w, j)
    ensures e.live[j] ==> Nearest(e, j, e.target[w]) && (LeadsTo(e, w, j) <==> LeadsTo(c, w, j))
    ensures !e.live[j] ==> NoCandidate(e, e.target[w])
    ensures c.target[w] / 4 < |c.code| && e.target[w] / 4 < |e.code|
    ensures e.code[e.target[w] / 4] == c.code[c.target[w] / 4]
  {
    hide RelsFit, RelsApart, BranchExact, Trimmed, LosesExit, CutOff, Candidate;
    var p, n := OneCut(c, t, f, e, w);
    assert Candidate(c, j, c.target[w]);
    InRels(c, j, c.target[w]);
    CandidateCut(c, t, f, e, w, j);
    forall k | Candidate(e, k, e.target[w])
      ensures 0 <= k < |e.rels| && e.live[j] && e.rels[j].tcOffset <= e.rels[k].tcOffset
    {
      InRels(e, k, e.target[w]);
      CandidateCut(c, t, f, e, w, k);
      CutOffLater(c, t, w, j, k);
    }
  }

  lemma InRels(c: Block, k: int, from: nat)
    requires Shaped(c) && Candidate(c, k, from)
    ensures 0 <= k < |c.rels| && c.live[k]
  {
  }

  /** What lies behind a relocation that reaches into the tail lies in the tail. */
  lemma CutOffLater(c: Block, t: bool, w: nat, j: nat, k: nat)
    requires Wf(c) && j < |c.rels| && k < |c.rels| && c.live[j] && c.live[k] && c.rels[j].tcOffset <= c.rels[k].tcOffset
    ensures CutOff(c, t, w, j) ==> CutOff(c, t, w, k)
  {
    hide BranchExact;
    assert RelFits(c.rels[j], |c.code|) && RelFits(c.rels[k], |c.code|);
    if j < k { assert Apart(c.rels[j], c.rels[k]); }
    if k < j { assert Apart(c.rels[k], c.rels[j]); }
  }

  // ----- all of it -----

  /** Which relocations a tail that goes cuts off does not change. */
  lemma CutOffAfterEdits(b: Block, es: seq<Edit>, c: Block, t: bool, w: nat, j: nat)
    requires Wf(b) && Leads(b, es, c) && j < |b.rels| && b.live[j]
    ensures Wf(c) && j < |c.rels| && (CutOff(c, t, w, j) <==> CutOff(b, t, w, j))
  {
    hide Leads, RelsApart, BranchExact, Track;
    LeadsWf(b, es, c);
    if ValidExit(b, 1) { EndsLater(b, es, c, j, 1); }
  }

  /** No order of the exits in which tail removal loses one comes about. */
  lemma LosesAfterEdits(b: Block, es: seq<Edit>, c: Block, t: bool)
    requires Wf(b) && Leads(b, es, c)
    ensures Wf(c) && (LosesExit(c, t) <==> LosesExit(b, t))
  {
    hide Leads, RelsFit, RelsApart, BranchExact, Track;
    LeadsWf(b, es, c);
    if ValidExit(b, 0) && ValidExit(b, 1) {
      LeadsExit(b, es, c, 0);
      LeadsExit(b, es, c, 1);
      assert ExitOk(b, 0) && ExitOk(b, 1) && ExitOk(c, 0) && ExitOk(c, 1);
      TrackAtMost(es, b.target[0] / 4, b.target[1] / 4);
      TrackAtMost(es, b.target[1] / 4, b.target[0] / 4);
    }
  }

  /** Where the exit of a block that is not linked leads after any passes, tail removal and repair, if it
      led to its stub: there again, if and only if another exit of the block is linked, so that
      repair aims it, or no pass has changed the distance.  If the other exit's tail takes the
      stub along, none is left behind the exit and its B is as it was. */
  lemma ExitAtLast(b: Block, es: seq<Edit>, c: Block, t: bool, f: bool, e: Block, d: Block, w: nat, j: nat)
    requires Wf(b) && Leads(b, es, c) && Trimmed(c, t, f, e) && Repaired(e, t, f, d)
    requires !LosesExit(b, t) && Unlinked(b, w, t, f) && Nearest(b, j, b.target[w]) && LeadsTo(b, w, j)
    ensures Shaped(d) && |d.live| == |b.live| && d.target[w] / 4 < |d.code|
    ensures d.live[j] <==> !CutOff(b, t, w, j)
    ensures d.live[j] ==>
              var x, r := b.target[w] / 4, b.rels[j].tcOffset / 4;
              LeadsTo(d, w, j) <==> (t || f) || Track(es, r) - Track(es, x) == r - x
    ensures !d.live[j] ==> NoCandidate(d, d.target[w]) && d.code[d.target[w] / 4] == b.code[b.target[w] / 4]
  {
    hide RelsFit, RelsApart, BranchExact, Leads, Trimmed, LosesExit, CutOff, Candidate, Nearest, NoCandidate, LeadsTo,
         Repaired, Track;
    ExitAfterEdits(b, es, c, w, j);
    NearestSlots(b, j, b.target[w]);
    CutOffAfterEdits(b, es, c, t, w, j);
    LosesAfterEdits(b, es, c, t);
    TailsExit(c, t, f, e, w, j);
    RepairedOne(e, t, f, d, w);
    SameCandidates(e, d, e.target[w]);
    if e.live[j] { RepairedExit(e, t, f, d, w, j); }
  }
}
