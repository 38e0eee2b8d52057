/** Branch repair after any sequence of passes, tail removal among them. */
module Repairs {
  import opened Isa
  import opened Blocks
  import opened Edits
  import RemoveTail
  import FixBranch

  /** One BNE, at q, in front of the false exit, which is in front of the true exit. */
  ghost predicate Standing(b: Block, q: nat) {
    && Wf(b) && ValidExit(b, 0) && ValidExit(b, 1) && b.bnes == [q]
    && q < b.target[0] / 4 && b.target[0] < b.target[1]
  }

  lemma StandingCode(b: Block, q: nat)
    requires Standing(b, q)
    ensures Shaped(b) && q < b.target[0] / 4 < b.target[1] / 4 < |b.code| && b.code[q].opc == BNE
    ensures b.target[0] % 4 == 0 == b.target[1] % 4
    ensures forall i :: 0 <= i < |b.code| && i != q ==> ClassOf(b.code[i].opc) != ClassBne
  {
    assert ExitOk(b, 0) && ExitOk(b, 1);
    PositionsSound(b.code, ClassBne, 0);
    assert q in b.bnes;
    forall i | 0 <= i < |b.code| && i != q
      ensures ClassOf(b.code[i].opc) != ClassBne
    {
      if ClassOf(b.code[i].opc) == ClassBne { PositionsComplete(b.code, ClassBne, 0, i); }
    }
  }

  /** The branch and the instruction it was aimed at are the same in both blocks. */
  ghost predicate SameEnds(b: Block, q: nat, c: Block, q': nat)
    requires Standing(b, q) && Standing(c, q')
  {
    && q < |b.code| && q' < |c.code| && b.target[1] / 4 < |b.code| && c.target[1] / 4 < |c.code|
    && c.code[q'] == b.code[q] && c.code[c.target[1] / 4] == b.code[b.target[1] / 4]
  }

  lemma TrimCode(b: Block, q: nat, w: nat)
    requires Standing(b, q) && w < 2
    ensures b.target[w] / 4 + 1 <= |b.code| && b.target[w] / 4 + 1 + RemoveTail.Remain(b, w) <= |b.code|
    ensures var c := RemoveTail.Trim(b, w);
            && Shaped(c) && q < c.target[0] / 4 && c.target[0] < c.target[1] && c.target[1] / 4 < |c.code|
            && c.code[q] == b.code[q] && c.code[c.target[1] / 4] == b.code[b.target[1] / 4]
            && forall i :: 0 <= i < |c.code| && i != q ==> ClassOf(c.code[i].opc) != ClassBne
  {
    hide Wf;
    StandingCode(b, q);
  }

  /** Removing a tail leaves the branch and both exits standing. */
  lemma TrimStanding(b: Block, q: nat, w: nat)
    requires Standing(b, q) && w < 2
    ensures b.target[w] / 4 + 1 <= |b.code| && b.target[w] / 4 + 1 + RemoveTail.Remain(b, w) <= |b.code|
    ensures Standing(RemoveTail.Trim(b, w), q) && SameEnds(b, q, RemoveTail.Trim(b, w), q)
  {
    hide RefsOk, RemoveTail.Trim;
    StandingCode(b, q);
    TrimCode(b, q, w);
    RemoveTail.TrimWf(b, w);
    OnlyOne(RemoveTail.Trim(b, w).code, ClassBne, q);
  }

  /** What a pass may do to a block: edits, or tail removal with any combination of successors. */
  datatype Pass = Edited(es: seq<Edit>) | Tails(trueLinked: bool, falseLinked: bool)

  ghost predicate Does(p: Pass, b: Block, c: Block) {
    match p
    case Edited(es) => Leads(b, es, c)
    case Tails(t, f) => RemoveTail.Trimmed(b, t, f, c)
  }

  /** Where a pass puts the instruction that b has at position i: what lies behind the false exit's tail
      moves up over it. */
  function Follow(p: Pass, b: Block, i: nat): nat
    requires Shaped(b)
  {
    match p
    case Edited(es) => Track(es, i)
    case Tails(_, f) =>
      if f && i > b.target[0] / 4 && RemoveTail.Remain(b, 0) > 0 then
        if i > b.target[0] / 4 + RemoveTail.Remain(b, 0) then i - RemoveTail.Remain(b, 0) else b.target[0] / 4 + 1
      else i
  }

  /** The same over a whole run: bs[i] is the block in front of pass ps[i]. */
  function FollowAll(bs: seq<Block>, ps: seq<Pass>, i: nat): nat
    requires |bs| == |ps| + 1 && forall k :: 0 <= k < |bs| ==> Shaped(bs[k])
  {
    if ps == [] then i
    else
      var n := |ps| - 1;
      Follow(ps[n], bs[n], FollowAll(bs[..n + 1], ps[..n], i))
  }

  ghost predicate IsRun(bs: seq<Block>, ps: seq<Pass>) {
    && |bs| == |ps| + 1 && (forall k :: 0 <= k < |bs| ==> Shaped(bs[k]))
    && forall k :: 0 <= k < |ps| ==> Does(ps[k], bs[k], bs[k + 1])
  }

  /** The branch and the true exit of b are at the positions of c where the pass puts them. */
  ghost predicate Carried(b: Block, q: nat, c: Block, q': nat, end: nat) {
    && Standing(b, q) && Standing(c, q') && SameEnds(b, q, c, q') && c.target[1] / 4 == end
  }

  /** The instruction at position i is neither deleted nor overwritten by the pass. */
  ghost predicate Survives(p: Pass, b: Block, i: nat)
    requires Shaped(b)
  {
    match p
    case Edited(es) => Untouched(es, i)
    case Tails(t, f) =>
      && (f ==> !(b.target[0] / 4 < i <= b.target[0] / 4 + RemoveTail.Remain(b, 0)))
      && (t ==> i <= b.target[1] / 4)
  }

  /** What survives is found at the position that Follow gives, and keeps its order: no two instructions
      are taken for each other. */
  lemma FollowInsn(p: Pass, b: Block, q: nat, c: Block, i: nat)
    requires Standing(b, q) && Does(p, b, c) && i < |b.code| && Shaped(b) && Survives(p, b, i)
    ensures Follow(p, b, i) < |c.code| && c.code[Follow(p, b, i)] == b.code[i]
    ensures forall j :: 0 <= j < i && Survives(p, b, j) ==> Follow(p, b, j) < Follow(p, b, i)
  {
    hide Standing, Leads, RemoveTail.Trimmed;
    match p {
      case Edited(es) =>
        StandingCode(b, q);
        LeadsInsn(b, es, c, i);
        forall j | 0 <= j < i && Untouched(es, j)
          ensures Track(es, j) < Track(es, i)
        {
          TrackOrder(es, j, i);
        }
      case Tails(t, f) =>
        TailsInsn(b, q, t, f, c, i);
        StandingCode(b, q);
    }
  }

  lemma TailsInsn(b: Block, q: nat, t: bool, f: bool, c: Block, i: nat)
    requires Standing(b, q) && RemoveTail.Trimmed(b, t, f, c) && i < |b.code| && Shaped(b)
    requires Survives(Tails(t, f), b, i)
    ensures Follow(Tails(t, f), b, i) < |c.code| && c.code[Follow(Tails(t, f), b, i)] == b.code[i]
  {
    hide RefsOk, BranchExact;
    StandingCode(b, q);
    assert ExitOk(b, 0) && ExitOk(b, 1);
  }

  lemma EditsStanding(b: Block, q: nat, es: seq<Edit>, c: Block)
    requires Standing(b, q) && Leads(b, es, c)
    ensures b.target[1] >= 0 && Carried(b, q, c, Track(es, q), Track(es, b.target[1] / 4))
  {
    hide Leads, RelsFit, RelsApart, BranchExact;
    StandingCode(b, q);
    LeadsWf(b, es, c);
    LeadsBranches(b, es, c);
    LeadsExit(b, es, c, 0);
    LeadsExit(b, es, c, 1);
    assert b.bnes[0] == q;
    LeadsInsn(b, es, c, q);
    LeadsInsn(b, es, c, b.target[1] / 4);
    TrackOrder(es, q, b.target[0] / 4);
    TrackOrder(es, b.target[0] / 4, b.target[1] / 4);
    assert c.bnes == [Track(es, q)];
  }

  lemma TailsStanding(b: Block, q: nat, t: bool, f: bool, c: Block)
    requires Standing(b, q) && RemoveTail.Trimmed(b, t, f, c)
    ensures b.target[1] >= 0 && Shaped(b)
    ensures Carried(b, q, c, Follow(Tails(t, f), b, q), Follow(Tails(t, f), b, b.target[1] / 4))
  {
    hide Wf, RemoveTail.Trim;
    StandingCode(b, q);
    if f {
      TrimStanding(b, q, 0);
      TrimTarget(b, q, 0);
      if t {
        TrimStanding(RemoveTail.Trim(b, 0), q, 1);
        TrimTarget(RemoveTail.Trim(b, 0), q, 1);
      }
    } else if t {
      TrimStanding(b, q, 1);
      TrimTarget(b, q, 1);
    }
  }

  lemma TrimTarget(b: Block, q: nat, w: nat)
    requires Standing(b, q) && w < 2
    ensures b.target[w] / 4 + 1 <= |b.code| && b.target[w] / 4 + 1 + RemoveTail.Remain(b, w) <= |b.code|
    ensures RemoveTail.Trim(b, w).target[1] / 4 == if w == 0 then b.target[0] / 4 + 1 else b.target[1] / 4
  {
    hide Covered, RelsFit, RelsApart, BranchExact;
    StandingCode(b, q);
    RemoveTail.TrimWf(b, w);
  }

  lemma PassedStanding(p: Pass, b: Block, q: nat, c: Block)
    requires Standing(b, q) && Does(p, b, c)
    ensures b.target[1] >= 0 && Shaped(b) && Carried(b, q, c, Follow(p, b, q), Follow(p, b, b.target[1] / 4))
  {
    hide Standing, Carried, Leads, RemoveTail.Trimmed;
    StandingCode(b, q);
    match p {
      case Edited(es) => EditsStanding(b, q, es, c);
      case Tails(t, f) => TailsStanding(b, q, t, f, c);
    }
  }

  lemma {:induction false} AllPassed(bs: seq<Block>, ps: seq<Pass>, q: nat)
    requires IsRun(bs, ps) && Standing(bs[0], q)
    ensures bs[0].target[1] >= 0
    ensures Carried(bs[0], q, bs[|ps|], FollowAll(bs, ps, q), FollowAll(bs, ps, bs[0].target[1] / 4))
    decreases |ps|
  {
    hide Standing, Does, SameEnds, Follow;
    var n := |ps| - 1;
    StandingCode(bs[0], q);
    if ps == [] {
      SameSelf(bs[0], q);
    } else {
      AllPassed(bs[..n + 1], ps[..n], q);
      PassedStanding(ps[n], bs[n], FollowAll(bs[..n + 1], ps[..n], q), bs[n + 1]);
      EndsTrans(bs[0], q, bs[n], FollowAll(bs[..n + 1], ps[..n], q), bs[n + 1], FollowAll(bs, ps, q));
    }
  }

  lemma EndsTrans(a: Block, p: nat, b: Block, q: nat, c: Block, r: nat)
    requires Standing(a, p) && Standing(b, q) && Standing(c, r) && SameEnds(a, p, b, q) && SameEnds(b, q, c, r)
    ensures SameEnds(a, p, c, r)
  {
  }

  lemma SameSelf(b: Block, q: nat)
    requires Standing(b, q)
    ensures SameEnds(b, q, b, q)
  {
    StandingCode(b, q);
  }

  /** Branch repair undoes stale offsets.  If the only BNE was aimed at the true exit, then after any
      sequence of passes and tail removals fix_bne aims the same BNE at the same instruction: not
      only equal ones, but the ones at the positions to which the passes have carried the two. */
  lemma RepairUndoes(bs: seq<Block>, ps: seq<Pass>, q: nat)
    requires IsRun(bs, ps) && Standing(bs[0], q) && q < |bs[0].code| && FixBranch.BneAimed(bs[0], q)
    ensures var b, c, q' := bs[0], bs[|ps|], FollowAll(bs, ps, q);
            && Standing(c, q') && q' < |c.code| && 0 <= q + b.code[q].offs < |b.code|
            && var d := FixBranch.Aimed(c, q', c.target[1] / 4);
               && Wf(d) && 0 <= q' + d.code[q'].offs < |d.code|
               && q' + d.code[q'].offs == FollowAll(bs, ps, q + b.code[q].offs)
               && d.code[q'].(offs := 0) == b.code[q].(offs := 0)
               && d.code[q' + d.code[q'].offs] == b.code[q + b.code[q].offs]
  {
    hide Wf, Does, Follow, FollowAll;
    AllPassed(bs, ps, q);
    StandingCode(bs[0], q);
    StandingCode(bs[|ps|], FollowAll(bs, ps, q));
    FixBranch.AimedLands(bs[|ps|], FollowAll(bs, ps, q));
  }
}
