/** The driver's round over one segment (tools/opt/driver.cpp): the merging walk, then branch repair, and
    that both leave every block settled for the rounds that follow. */
module Segments {
  import opened Blocks
  import opened LinkLists
  import opened Tbs
  import opened Merge
  import opened Graphs
  import opened Walks
  import opened TuVisitors
  import opened Loads
  import FixBranch

  // ----- on graph values -----

  /** A merge leaves the merging block without exits, and without links, as the loader would link it. */
  lemma JoinSettled(p: map<TB, Node<TB>>, order: seq<TB>, total: nat, a: TB, addrToTb: map<nat, TB>, begins: map<TB,
                    nat>)
    requires Sound(p, order, total) && CanJoin(p, a) && AllSettled(p, addrToTb, begins)
    ensures AllSettled(Joined(p, a), addrToTb, begins)
  {
    hide Merged, RefsOk, BranchExact, Sound, Blank;
    var q := Joined(p, a);
    JoinSizes(p, a);
    JoinRoom(p, order, total, a);
    JoinSound(p, order, total, a);
    SoundClosed(q, order, total);
    assert NodeOk(q[a]) && NodeSettled(a, p[a], addrToTb, begins);
    assert q[a].succ == [None, None];
    forall b | b in q
      ensures NodeSettled(b, q[b], addrToTb, begins)
    {
      if b != a { assert q[b] == p[b] && NodeSettled(b, p[b], addrToTb, begins); }
    }
  }

  lemma {:induction false} AfterSettled(p: map<TB, Node<TB>>, order: seq<TB>, total: nat, joins: seq<TB>,
                                        addrToTb: map<nat, TB>, begins: map<TB, nat>)
    requires Sound(p, order, total) && Legal(p, joins) && AllSettled(p, addrToTb, begins)
    ensures AllSettled(After(p, joins), addrToTb, begins)
    decreases |joins|
  {
    hide Sound, CanJoin, Joined, AllSettled;
    if joins != [] {
      JoinSound(p, order, total, joins[0]);
      JoinSettled(p, order, total, joins[0], addrToTb, begins);
      AfterSettled(Joined(p, joins[0]), order, total, joins[1..], addrToTb, begins);
    }
  }

  /** What repair leaves of a block in the graph. */
  ghost predicate NodeRepaired(n: Node<TB>, m: Node<TB>) {
    && Shaped(n.block) && |n.succ| == 2 && m.succ == n.succ
    && FixBranch.Repaired(n.block, n.succ[1].Some?, n.succ[0].Some?, m.block)
  }

  lemma RepairSettled(b: TB, n: Node<TB>, m: Node<TB>, addrToTb: map<nat, TB>, begins: map<TB, nat>)
    requires NodeSettled(b, n, addrToTb, begins) && NodeRepaired(n, m) && b in begins
    ensures NodeSettled(b, m, addrToTb, begins)
  {
    hide Wf, FixBranch.Repaired;
    FixBranch.RepairedWf(n.block, n.succ[1].Some?, n.succ[0].Some?, m.block);
    assert Shaped(m.block) by { WfShaped(m.block); }
  }

  /** fix_bne relies on it: a block with two exits has a BNE. */
  predicate BneThere(b: Block) { Shaped(b) && (ValidExit(b, 0) && ValidExit(b, 1) ==> b.bnes != []) }

  /** What repair asks of a block. */
  ghost predicate Ready(n: Node<TB>) { Wf(n.block) && BneThere(n.block) }

  lemma RepairSound(p: map<TB, Node<TB>>, order: seq<TB>, total: nat, b: TB, m: Node<TB>)
    requires Sound(p, order, total) && b in p && Ready(p[b]) && NodeRepaired(p[b], m)
    ensures Sound(p[b := m], order, total)
  {
    hide RelsFit, RelsApart, BranchExact, ExitsAligned, FixBranch.Repaired, Lists;
    var n := p[b];
    FixBranch.RepairedWf(n.block, n.succ[1].Some?, n.succ[0].Some?, m.block);
    assert NodeOk(n) && NodeOk(m);
    PutSound(p, order, total, b, m, 0);
  }

  // ----- on the heap -----

  lemma NodeIs(tb: TB)
    requires tb.Valid()
    ensures NodeOf(tb).block == tb.View() && NodeOf(tb).succ == [Opt(tb.falseBranch), Opt(tb.trueBranch)]
  {
  }

  lemma LinksAre(n: Node<TB>, m: Node<TB>, falseBranch: TB?, trueBranch: TB?)
    requires Shaped(n.block) && n.succ == [Opt(falseBranch), Opt(trueBranch)] == m.succ
    requires FixBranch.Repaired(n.block, trueBranch != null, falseBranch != null, m.block)
    ensures NodeRepaired(n, m)
  {
    hide FixBranch.Repaired;
  }

  lemma LinksInside(order: seq<TB>, tb: TB)
    requires Heap(order) && tb in order
    ensures Inside(order, tb.falseBranch) && Inside(order, tb.trueBranch) && tb.Valid()
  {
  }

  lemma BneHere(b: Block)
    requires BneThere(b)
    ensures Shaped(b) && (ValidExit(b, 0) && ValidExit(b, 1) ==> b.bnes != [])
  {
  }

  lemma ReadyHere(order: seq<TB>, b: TB)
    requires Heap(order) && b in order && Ready(Snapshot(order)[b])
    ensures b.Valid() && Wf(b.View()) && BneThere(b.View())
  {
    hide Wf, BneThere;
  }

  /** Branch repair on one block of the graph. */
  method RepairOne(ghost order: seq<TB>, ghost total: nat, tb: TB)
    requires Heap(order) && Sound(Snapshot(order), order, total) && tb in order && Ready(Snapshot(order)[tb])
    modifies tb.insns.Repr
    ensures Heap(order) && Sound(Snapshot(order), order, total) && tb.insns.Repr == old(tb.insns.Repr)
    ensures Snapshot(order) == old(Snapshot(order))[tb := Snapshot(order)[tb]]
    ensures NodeRepaired(old(Snapshot(order))[tb], Snapshot(order)[tb])
  {
    hide *;
    ghost var p, n := Snapshot(order), Snapshot(order)[tb];
    ReadyHere(order, tb);
    HeapOpen(order, tb);
    DistantOpen(order, tb);
    LinksInside(order, tb);
    NodeIs(tb);
    BneHere(tb.View());
    FixBranch.Visit(tb);
    assert Others(order, tb);
    assert OtherNodes(order, tb) == old(OtherNodes(order, tb));
    DistantClose(order, tb);
    HeapClose(order, tb);
    NodeIs(tb);
    LinksAre(n, Snapshot(order)[tb], tb.falseBranch, tb.trueBranch);
    assert Snapshot(order) == p[tb := Snapshot(order)[tb]];
    RepairSound(p, order, total, tb, Snapshot(order)[tb]);
  }

  /** FixBranchVistor::start: every block of the segment is repaired, and no other changes. */
  method RepairSegment(ghost order: seq<TB>, ghost total: nat, tbs: seq<TB>)
    requires Heap(order) && Sound(Snapshot(order), order, total)
    requires (forall b :: b in tbs ==> b in order && Ready(Snapshot(order)[b]))
    requires forall i, j :: 0 <= i < j < |tbs| ==> tbs[i] != tbs[j]
    modifies set b, n | b in tbs && n in b.insns.Repr :: n
    ensures Heap(order) && Sound(Snapshot(order), order, total)
    ensures forall b :: b in order && b !in tbs ==> Snapshot(order)[b] == old(Snapshot(order))[b]
    ensures forall b :: b in tbs ==> NodeRepaired(old(Snapshot(order))[b], Snapshot(order)[b])
  {
    hide *;
    ghost var p := Snapshot(order);
    for i := 0 to |tbs|
      invariant forall b :: b in tbs ==> b.insns.Repr == old(b.insns.Repr)
      invariant Heap(order) && Sound(Snapshot(order), order, total)
      invariant forall b :: b in order && b !in tbs[..i] ==> Snapshot(order)[b] == p[b]
      invariant forall j :: 0 <= j < i ==> NodeRepaired(p[tbs[j]], Snapshot(order)[tbs[j]])
    {
      ghost var q := Snapshot(order);
      assert q[tbs[i]] == p[tbs[i]];
      RepairOne(order, total, tbs[i]);
    }
  }

  // ----- the whole round -----

  /** The graph that the walks from the given entry blocks leave. */
  ghost function Walked(p: map<TB, Node<TB>>, entries: seq<TB>): (q: map<TB, Node<TB>>)
    ensures q.Keys == p.Keys
  {
    After(p, WalkAll(p, entries))
  }

  /** The walks leave a block with two exits as it was, so repair may still be run on the segment. */
  lemma WalkedReady(p: map<TB, Node<TB>>, order: seq<TB>, total: nat, entries: seq<TB>, addrToTb: map<nat, TB>,
                    begins: map<TB, nat>)
    requires Sound(p, order, total) && AllSettled(p, addrToTb, begins) && forall e :: e in entries ==> e in p
    ensures AllSettled(Walked(p, entries), addrToTb, begins)
    ensures Sound(Walked(p, entries), order, total)
    ensures forall b :: b in p && b in begins && BneThere(p[b].block) ==> Ready(Walked(p, entries)[b])
    ensures forall b :: b in p && b !in begins ==> Walked(p, entries)[b] == p[b]
  {
    hide Sound, After, Legal, WalkAll, AllSettled, Wf, Blank;
    var joins := WalkAll(p, entries);
    WalkAllGood(p, order, total, entries);
    AfterSettled(p, order, total, joins, addrToTb, begins);
    forall b | b in p && b !in begins
      ensures Walked(p, entries)[b] == p[b]
    {
      NotYetJoined(p, order, total, joins, b, addrToTb, begins);
      AfterElsewhere(p, joins, b);
    }
    forall b | b in p && b in begins && BneThere(p[b].block)
      ensures Ready(Walked(p, entries)[b])
    {
      SettledAt(After(p, joins), b, addrToTb, begins);
      if b in joins {
        JoinedDone(p, joins, b);
      } else {
        AfterElsewhere(p, joins, b);
      }
    }
  }

  /** A block that is not linked yet does not merge. */
  lemma {:induction false} NotYetJoined(p: map<TB, Node<TB>>, order: seq<TB>, total: nat, joins: seq<TB>, b: TB,
                                        addrToTb: map<nat, TB>, begins: map<TB, nat>)
    requires Sound(p, order, total) && Legal(p, joins) && AllSettled(p, addrToTb, begins) && b in p && b !in begins
    ensures b !in joins
    decreases |joins|
  {
    hide Sound, CanJoin, Joined, AllSettled;
    if joins != [] {
      JoinSound(p, order, total, joins[0]);
      JoinSettled(p, order, total, joins[0], addrToTb, begins);
      LinkedJoins(p, joins[0], addrToTb, begins);
      NotYetJoined(Joined(p, joins[0]), order, total, joins[1..], b, addrToTb, begins);
    }
  }

  lemma LinkedJoins(p: map<TB, Node<TB>>, a: TB, addrToTb: map<nat, TB>, begins: map<TB, nat>)
    requires CanJoin(p, a) && AllSettled(p, addrToTb, begins)
    ensures a in begins
  {
    hide Wf, Blank, NodeOk;
    assert NodeSettled(a, p[a], addrToTb, begins);
  }

  lemma SettledAt(p: map<TB, Node<TB>>, b: TB, addrToTb: map<nat, TB>, begins: map<TB, nat>)
    requires AllSettled(p, addrToTb, begins) && b in p
    ensures NodeSettled(b, p[b], addrToTb, begins)
  {
  }

  /** Repair of some blocks of a settled graph leaves it settled. */
  lemma RepairedSettled(q: map<TB, Node<TB>>, r: map<TB, Node<TB>>, tbs: seq<TB>, addrToTb: map<nat, TB>,
                        begins: map<TB, nat>)
    requires AllSettled(q, addrToTb, begins) && r.Keys == q.Keys && forall b :: b in tbs ==> b in q && b in begins
    requires forall b :: b in q && b !in tbs ==> r[b] == q[b]
    requires forall b :: b in tbs ==> NodeRepaired(q[b], r[b])
    ensures AllSettled(r, addrToTb, begins)
  {
    hide NodeSettled, NodeRepaired;
    forall b | b in r
      ensures NodeSettled(b, r[b], addrToTb, begins)
    {
      if b in tbs { RepairSettled(b, q[b], r[b], addrToTb, begins); }
    }
  }

  lemma EntriesInside(tbs: seq<TB>)
    ensures forall b :: b in EntryBlocks(tbs) ==> b in tbs
    decreases |tbs|
  {
    if tbs != [] { EntriesInside(tbs[..|tbs| - 1]); }
  }

  /** The walk, and that the segment may then be repaired. */
  method WalkSegment(ghost order: seq<TB>, ghost total: nat, tbs: seq<TB>, ghost addrToTb: map<nat, TB>,
                     ghost begins: map<TB, nat>)
    requires Heap(order) && Sound(Snapshot(order), order, total) && AllSettled(Snapshot(order), addrToTb, begins)
    requires forall b :: b in tbs ==> b in order && b in begins && BneThere(Snapshot(order)[b].block)
    modifies order, set b | b in order :: b.insns, set b, n | b in order && n in b.insns.Repr :: n
    ensures Heap(order) && Sound(Snapshot(order), order, total) && AllSettled(Snapshot(order), addrToTb, begins)
    ensures Snapshot(order) == Walked(old(Snapshot(order)), old(EntryBlocks(tbs)))
    ensures forall b :: b in tbs ==> Ready(Snapshot(order)[b])
    ensures forall b :: b in order ==> fresh(b.insns.Repr - old(b.insns.Repr))
  {
    hide *;
    ghost var p, entries := Snapshot(order), EntryBlocks(tbs);
    EntriesInside(tbs);
    WalkedReady(p, order, total, entries, addrToTb, begins);
    Start(order, total, tbs);
    WalkedIs(p, entries);
  }

  /** One round of the driver: the walks from the entry blocks of the segment, then repair of its blocks.
      Every block, of this segment, of an earlier one or of a later one, is settled afterwards, as it
      was before. */
  method RunSegment(ghost order: seq<TB>, ghost total: nat, tbs: seq<TB>, ghost addrToTb: map<nat, TB>,
                    ghost begins: map<TB, nat>)
    requires Heap(order) && Sound(Snapshot(order), order, total) && AllSettled(Snapshot(order), addrToTb, begins)
    requires forall b :: b in tbs ==> b in order && b in begins && BneThere(Snapshot(order)[b].block)
    requires forall i, j :: 0 <= i < j < |tbs| ==> tbs[i] != tbs[j]
    modifies order, set b | b in order :: b.insns, set b, n | b in order && n in b.insns.Repr :: n
    ensures Heap(order) && Sound(Snapshot(order), order, total) && AllSettled(Snapshot(order), addrToTb, begins)
    ensures forall b :: b in order ==> fresh(b.insns.Repr - old(b.insns.Repr))
    ensures forall b :: b in order && b !in begins ==> Snapshot(order)[b] == old(Snapshot(order))[b]
    ensures var q := Walked(old(Snapshot(order)), old(EntryBlocks(tbs)));
            forall b :: b in order ==>
              if b in tbs then NodeRepaired(q[b], Snapshot(order)[b]) else Snapshot(order)[b] == q[b]
  {
    hide *;
    ghost var p, entries := Snapshot(order), EntryBlocks(tbs);
    EntriesInside(tbs);
    WalkedReady(p, order, total, entries, addrToTb, begins);
    WalkSegment(order, total, tbs, addrToTb, begins);
    ghost var q := Snapshot(order);
    RepairSegment(order, total, tbs);
    RepairedSettled(q, Snapshot(order), tbs, addrToTb, begins);
  }

  lemma WalkedIs(p: map<TB, Node<TB>>, entries: seq<TB>)
    ensures Walked(p, entries) == After(p, WalkAll(p, entries))
  {
  }
}
