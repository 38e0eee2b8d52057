/** The driver's loop over the segments of a file (tools/opt/driver.cpp): each segment is linked, given its
    relocations and decoded, and then walked and repaired.  What a round needs of the blocks holds
    before each one, whatever the rounds before it have merged. */
module Drivers {
  import opened Isa
  import opened Blocks
  import opened LinkLists
  import opened Tbs
  import opened Graphs
  import opened TuVisitors
  import opened Settles
  import opened Loads
  import opened Segments

  /** What a block's record says of it: its slice of the relocation table and its code words. */
  datatype Record = Record(start: int, end: int, words: seq<nat>)

  datatype Seg = Seg(tbs: seq<TB>, records: seq<Record>, begin: nat)

  /** What all segments share: the relocation table, the decoder, and the map from addresses to blocks. */
  datatype File = File(table: seq<Rel>, decode: nat -> Insn, addrToTb: map<nat, TB>)

  // ----- on graph values -----

  function Decoded(words: seq<nat>, decode: nat -> Insn): seq<Insn> {
    seq(|words|, k requires 0 <= k < |words| => decode(words[k]))
  }

  predicate Readable(f: File, r: Record) {
    -TWO64 <= r.start && -TWO64 <= r.end && Slice(f.table, r.start, r.end).Some?
  }

  /** The links that settle_all_tb gives a block. */
  function Links(f: File, b: TB, reset: seq<nat>, begin: nat): seq<Option<TB>>
    requires |reset| == 2 && |b.x86Offset| == 2
  {
    [LinkAt(reset[0], b.x86Offset[0], f.addrToTb, begin), LinkAt(reset[1], b.x86Offset[1], f.addrToTb, begin)]
  }

  /** Block b once its segment is open, where it was n before. */
  ghost function Opened(f: File, b: TB, n: Node<TB>, r: Record, begin: nat): Node<TB>
    requires Readable(f, r) && |b.x86Offset| == 2 && Shaped(n.block)
  {
    Node(Loaded(Decoded(r.words, f.decode), Slice(f.table, r.start, r.end).value, n.block.reset, n.block.target),
         Links(f, b, n.block.reset, begin))
  }

  /** The record describes a well-formed block, with a BNE if both its exits are valid. */
  ghost predicate Good(f: File, b: TB, n: Node<TB>, r: Record) {
    && Readable(f, r) && |b.x86Offset| == 2 && Shaped(n.block)
    && Loadable(Decoded(r.words, f.decode), Slice(f.table, r.start, r.end).value, n.block.reset, n.block.target)
    && BneThere(Opened(f, b, n, r, 0).block)
  }

  lemma OpenedOk(f: File, b: TB, n: Node<TB>, r: Record, begin: nat)
    requires Good(f, b, n, r)
    ensures var m := Opened(f, b, n, r, begin);
            && Wf(m.block) && NodeOk(m) && BneThere(m.block) && |m.block.code| == |r.words|
            && (forall w :: 0 <= w < 2 && m.succ[w].Some? ==> m.succ[w].value in f.addrToTb.Values)
            && m.block == Opened(f, b, n, r, 0).block
  {
    hide Wf, Positions;
    var m := Opened(f, b, n, r, begin);
    LoadedWf(m.block);
    WfNode(m);
  }

  lemma WfNode(m: Node<TB>)
    requires Wf(m.block) && |m.succ| == 2 && Shaped(m.block)
    requires forall w :: 0 <= w < 2 && m.succ[w].Some? ==> ValidExit(m.block, w)
    ensures NodeOk(m)
  {
    assert ExitOk(m.block, 0) && ExitOk(m.block, 1);
  }

  /** The segment may be opened: its blocks are distinct and still blank, and their records good. */
  ghost predicate Openable(f: File, p: map<TB, Node<TB>>, s: Seg, begins: map<TB, nat>) {
    && |s.records| == |s.tbs| && (forall i, j :: 0 <= i < j < |s.tbs| ==> s.tbs[i] != s.tbs[j])
    && (forall i :: 0 <= i < |s.tbs| ==>
          s.tbs[i] in p && s.tbs[i] !in begins && Good(f, s.tbs[i], p[s.tbs[i]], s.records[i]))
    && forall b :: b in f.addrToTb.Values ==> b in p
  }

  /** The nodes that opening makes of the segment's blocks. */
  ghost function AllOpened(f: File, p: map<TB, Node<TB>>, s: Seg, begins: map<TB, nat>): (ns: seq<Node<TB>>)
    requires Openable(f, p, s, begins)
    ensures |ns| == |s.tbs|
    ensures forall i :: 0 <= i < |s.tbs| ==> ns[i] == Opened(f, s.tbs[i], p[s.tbs[i]], s.records[i], s.begin)
  {
    seq(|s.tbs|, i requires 0 <= i < |s.tbs| => Opened(f, s.tbs[i], p[s.tbs[i]], s.records[i], s.begin))
  }

  /** The graph with the first i of the given blocks replaced. */
  ghost function PutAll(p: map<TB, Node<TB>>, bs: seq<TB>, ns: seq<Node<TB>>, i: nat): map<TB, Node<TB>>
    requires |ns| == |bs| && i <= |bs|
  {
    if i == 0 then p else PutAll(p, bs, ns, i - 1)[bs[i - 1] := ns[i - 1]]
  }

  lemma {:induction false} PutAllAt(p: map<TB, Node<TB>>, bs: seq<TB>, ns: seq<Node<TB>>, i: nat)
    requires |ns| == |bs| && i <= |bs| && (forall j :: 0 <= j < |bs| ==> bs[j] in p)
    requires forall j, k :: 0 <= j < k < |bs| ==> bs[j] != bs[k]
    ensures PutAll(p, bs, ns, i).Keys == p.Keys
    ensures forall b :: b in p && b !in bs ==> PutAll(p, bs, ns, i)[b] == p[b]
    ensures forall j :: 0 <= j < |bs| ==> PutAll(p, bs, ns, i)[bs[j]] == if j < i then ns[j] else p[bs[j]]
  {
    if i > 0 {
      PutAllAt(p, bs, ns, i - 1);
    }
  }

  lemma PutAllIs(p: map<TB, Node<TB>>, bs: seq<TB>, ns: seq<Node<TB>>, q: map<TB, Node<TB>>)
    requires |ns| == |bs| && (forall j :: 0 <= j < |bs| ==> bs[j] in p)
    requires forall j, k :: 0 <= j < k < |bs| ==> bs[j] != bs[k]
    requires q.Keys == p.Keys && (forall b :: b in p && b !in bs ==> q[b] == p[b])
    requires forall j :: 0 <= j < |bs| ==> q[bs[j]] == ns[j]
    ensures q == PutAll(p, bs, ns, |bs|)
  {
    hide PutAll;
    PutAllAt(p, bs, ns, |bs|);
    var r := PutAll(p, bs, ns, |bs|);
    forall b | b in p
      ensures b in r && q[b] == r[b]
    {
      if b in bs { var j := Listed(bs, b); }
    }
  }

  lemma Listed(bs: seq<TB>, b: TB) returns (j: nat)
    requires b in bs
    ensures j < |bs| && bs[j] == b
  {
    j :| 0 <= j < |bs| && bs[j] == b;
  }

  /** Replacing them again forgets what was put there first. */
  lemma PutAgain(p: map<TB, Node<TB>>, bs: seq<TB>, ms: seq<Node<TB>>, ns: seq<Node<TB>>)
    requires |ms| == |bs| == |ns| && (forall j :: 0 <= j < |bs| ==> bs[j] in p)
    requires forall j, k :: 0 <= j < k < |bs| ==> bs[j] != bs[k]
    ensures PutAll(PutAll(p, bs, ms, |bs|), bs, ns, |bs|) == PutAll(p, bs, ns, |bs|)
  {
    hide PutAll;
    var q := PutAll(p, bs, ms, |bs|);
    PutAllAt(p, bs, ms, |bs|);
    PutAllAt(q, bs, ns, |bs|);
    PutAllIs(p, bs, ns, PutAll(q, bs, ns, |bs|));
  }

  ghost function Begun(begins: map<TB, nat>, s: Seg, i: nat): map<TB, nat>
    requires i <= |s.tbs|
  {
    if i == 0 then begins else Begun(begins, s, i - 1)[s.tbs[i - 1] := s.begin]
  }

  function Words(s: Seg, i: nat): nat
    requires i <= |s.records|
  {
    if i == 0 then 0 else Words(s, i - 1) + |s.records[i - 1].words|
  }

  lemma {:induction false} BegunAt(begins: map<TB, nat>, s: Seg, i: nat, b: TB)
    requires i <= |s.tbs|
    ensures b in Begun(begins, s, i) <==> b in begins || b in s.tbs[..i]
  {
    if i > 0 {
      BegunAt(begins, s, i - 1, b);
      assert s.tbs[..i] == s.tbs[..i - 1] + [s.tbs[i - 1]];
    }
  }

  /** One block opened: settled with its segment's beginning. */
  lemma OpenOne(f: File, p: map<TB, Node<TB>>, begins: map<TB, nat>, b: TB, n: Node<TB>, r: Record, begin: nat)
    requires AllSettled(p, f.addrToTb, begins) && b in p && Good(f, b, n, r)
    ensures AllSettled(p[b := Opened(f, b, n, r, begin)], f.addrToTb, begins[b := begin])
  {
    hide Wf, Blank, Good, Positions, LinkAt;
    OpenedOk(f, b, n, r, begin);
    assert |b.x86Offset| == 2 && Shaped(n.block) && Readable(f, r) by { GoodParts(f, b, n, r); }
    var q := p[b := Opened(f, b, n, r, begin)];
    forall a | a in q
      ensures NodeSettled(a, q[a], f.addrToTb, begins[b := begin])
    {
      if a != b { assert NodeSettled(a, p[a], f.addrToTb, begins); }
    }
  }

  lemma GoodParts(f: File, b: TB, n: Node<TB>, r: Record)
    requires Good(f, b, n, r)
    ensures |b.x86Offset| == 2 && Shaped(n.block) && Readable(f, r)
  {
  }

  lemma StillBlank(p: map<TB, Node<TB>>, b: TB, addrToTb: map<nat, TB>, begins: map<TB, nat>)
    requires AllSettled(p, addrToTb, begins) && b in p && b !in begins
    ensures |b.x86Offset| == 2 && Blank(p[b].block) && Shaped(p[b].block) && p[b].block.code == []
    ensures p[b].succ == [None, None]
  {
    assert NodeSettled(b, p[b], addrToTb, begins);
  }

  /** One block opened, in a graph that may be walked. */
  lemma OpenNext(f: File, q: map<TB, Node<TB>>, order: seq<TB>, total: nat, begins: map<TB, nat>, b: TB, r: Record,
                 begin: nat)
    requires Sound(q, order, total) && AllSettled(q, f.addrToTb, begins) && b in q && b !in begins
    requires Good(f, b, q[b], r)
    requires (forall a :: a in f.addrToTb.Values ==> a in q) && 4 * (total + |r.words|) < TWO32
    ensures |b.x86Offset| == 2 && Shaped(q[b].block) && Readable(f, r)
    ensures var q' := q[b := Opened(f, b, q[b], r, begin)];
            Sound(q', order, total + |r.words|) && AllSettled(q', f.addrToTb, begins[b := begin])
  {
    hide Sound, AllSettled, Good, Opened, NodeOk, Wf;
    StillBlank(q, b, f.addrToTb, begins);
    OpenedOk(f, b, q[b], r, begin);
    GoodParts(f, b, q[b], r);
    OpenOne(f, q, begins, b, q[b], r, begin);
    PutSound(q, order, total, b, Opened(f, b, q[b], r, begin), |r.words|);
  }

  lemma Steps(p: map<TB, Node<TB>>, s: Seg, ns: seq<Node<TB>>, begins: map<TB, nat>, i: nat)
    requires |s.records| == |s.tbs| == |ns| && i <= |s.tbs|
    ensures i == 0 ==> PutAll(p, s.tbs, ns, i) == p && Begun(begins, s, i) == begins && Words(s, i) == 0
    ensures i > 0 ==>
              && PutAll(p, s.tbs, ns, i) == PutAll(p, s.tbs, ns, i - 1)[s.tbs[i - 1] := ns[i - 1]]
              && Begun(begins, s, i) == Begun(begins, s, i - 1)[s.tbs[i - 1] := s.begin]
              && Words(s, i) == Words(s, i - 1) + |s.records[i - 1].words|
  {
  }

  lemma OpenableParts(f: File, p: map<TB, Node<TB>>, s: Seg, begins: map<TB, nat>)
    requires Openable(f, p, s, begins)
    ensures |s.records| == |s.tbs| && forall i, j :: 0 <= i < j < |s.tbs| ==> s.tbs[i] != s.tbs[j]
    ensures forall b :: b in s.tbs ==> b in p && b !in begins
    ensures forall b :: b in f.addrToTb.Values ==> b in p
  {
  }

  lemma GoodAt(f: File, p: map<TB, Node<TB>>, s: Seg, begins: map<TB, nat>, i: nat)
    requires Openable(f, p, s, begins) && i < |s.tbs|
    ensures s.tbs[i] in p && s.tbs[i] !in begins && s.tbs[i] !in s.tbs[..i]
    ensures |s.records| == |s.tbs| && Good(f, s.tbs[i], p[s.tbs[i]], s.records[i])
  {
    hide Good;
  }

  /** Opening a segment keeps the graph sound and settled; what one may merge grows by its code. */
  lemma {:induction false} OpenedSound(f: File, p: map<TB, Node<TB>>, order: seq<TB>, total: nat, s: Seg,
                                       begins: map<TB, nat>, i: nat)
    requires Sound(p, order, total) && AllSettled(p, f.addrToTb, begins) && Openable(f, p, s, begins) && i <= |s.tbs|
    requires 4 * (total + Words(s, i)) < TWO32
    ensures var q := PutAll(p, s.tbs, AllOpened(f, p, s, begins), i);
            Sound(q, order, total + Words(s, i)) && AllSettled(q, f.addrToTb, Begun(begins, s, i))
  {
    hide *;
    OpenableParts(f, p, s, begins);
    Steps(p, s, AllOpened(f, p, s, begins), begins, i);
    if i > 0 {
      OpenedSound(f, p, order, total, s, begins, i - 1);
      var ns, b, r := AllOpened(f, p, s, begins), s.tbs[i - 1], s.records[i - 1];
      var q := PutAll(p, s.tbs, ns, i - 1);
      PutAllAt(p, s.tbs, ns, i - 1);
      BegunAt(begins, s, i - 1, b);
      GoodAt(f, p, s, begins, i - 1);
      OpenNext(f, q, order, total + Words(s, i - 1), Begun(begins, s, i - 1), b, r, s.begin);
    }
  }

  // ----- opening a segment on the heap -----

  lemma BlankHere(order: seq<TB>, b: TB, addrToTb: map<nat, TB>, begins: map<TB, nat>)
    requires Heap(order) && AllSettled(Snapshot(order), addrToTb, begins) && b in order && b !in begins
    ensures |b.x86Offset| == 2 && b.Valid() && |b.jmpReset| == 2 && b.trueBranch == null && b.falseBranch == null
    ensures Snapshot(order)[b] == Unlinked(b.View())
  {
    StillBlank(Snapshot(order), b, addrToTb, begins);
  }

  /** What is in memory does not depend on links, ... */
  ghost predicate Separated(order: seq<TB>)
    reads set b | b in order :: b.insns
  {
    forall a, b :: a in order && b in order && a != b ==>
      a.x86Addr != b.x86Addr && a.insns != b.insns && a.insns.Repr !! b.insns.Repr
  }

  lemma HeapParts(order: seq<TB>)
    requires Heap(order)
    ensures Separated(order)
    ensures forall b :: b in order ==> b.Valid() && Inside(order, b.trueBranch) && Inside(order, b.falseBranch)
  {
  }

  /** ... so new links to blocks in the graph leave it as it is. */
  lemma HeapWhole(order: seq<TB>)
    requires Separated(order)
    requires forall b :: b in order ==> b.Valid() && Inside(order, b.trueBranch) && Inside(order, b.falseBranch)
    ensures Heap(order)
  {
  }

  lemma InsideLinks(order: seq<TB>, f: File, b: TB, begin: nat)
    requires |b.jmpReset| == 2 && |b.x86Offset| == 2 && forall a :: a in f.addrToTb.Values ==> a in order
    ensures Inside(order, Ptr(LinkOf(b, 0, f.addrToTb, begin))) && Inside(order, Ptr(LinkOf(b, 1, f.addrToTb, begin)))
  {
  }

  /** A block with the given links, as a node. */
  lemma LinkedNode(f: File, b: TB, v: Block, begin: nat)
    requires b.Valid() && b.View() == v && |b.x86Offset| == 2 && |b.jmpReset| == 2
    requires b.trueBranch == Ptr(LinkOf(b, 1, f.addrToTb, begin))
    requires b.falseBranch == Ptr(LinkOf(b, 0, f.addrToTb, begin))
    ensures Shaped(v) && NodeOf(b) == Node(v, Links(f, b, v.reset, begin))
  {
    hide LinkAt;
  }

  /** The nodes that linking makes of the segment's blocks. */
  ghost function AllLinked(f: File, p: map<TB, Node<TB>>, s: Seg, begins: map<TB, nat>): (ns: seq<Node<TB>>)
    requires Openable(f, p, s, begins)
    ensures |ns| == |s.tbs|
    ensures forall i :: 0 <= i < |s.tbs| ==>
              var b := s.tbs[i];
              && b in p && Shaped(p[b].block) && |b.x86Offset| == 2
              && ns[i] == Node(p[b].block, Links(f, b, p[b].block.reset, s.begin))
  {
    seq(|s.tbs|, i requires 0 <= i < |s.tbs| =>
          Node(p[s.tbs[i]].block, Links(f, s.tbs[i], p[s.tbs[i]].block.reset, s.begin)))
  }

  lemma LinkedGraph(f: File, p: map<TB, Node<TB>>, s: Seg, begins: map<TB, nat>, q: map<TB, Node<TB>>)
    requires Openable(f, p, s, begins) && q.Keys == p.Keys
    requires forall b :: b in p && b !in s.tbs ==> q[b] == p[b]
    requires forall b :: b in s.tbs ==>
               && b in p && |p[b].block.reset| == 2 && |b.x86Offset| == 2
               && q[b] == Node(p[b].block, Links(f, b, p[b].block.reset, s.begin))
    ensures q == PutAll(p, s.tbs, AllLinked(f, p, s, begins), |s.tbs|)
  {
    hide Good, Links, PutAll, AllLinked;
    PutAllIs(p, s.tbs, AllLinked(f, p, s, begins), q);
  }

  /** settle_all_tb on blocks without links. */
  method LinkBlocks(ghost order: seq<TB>, f: File, tbs: seq<TB>, begin: nat)
    requires Heap(order) && forall i, j :: 0 <= i < j < |tbs| ==> tbs[i] != tbs[j]
    requires (forall b :: b in f.addrToTb.Values ==> b in order) && forall i :: 0 <= i < |tbs| ==> tbs[i] in order
    requires forall b :: b in tbs ==>
               |b.x86Offset| == 2 && |b.jmpReset| == 2 && b.trueBranch == null && b.falseBranch == null
    modifies order`trueBranch, order`falseBranch, order`parents
    ensures Heap(order) && forall b :: b in order && b !in tbs ==> Snapshot(order)[b] == old(Snapshot(order))[b]
    ensures forall b :: b in tbs ==>
              && b in order && |b.x86Offset| == 2 && |b.jmpReset| == 2
              && b.trueBranch == Ptr(LinkOf(b, 1, f.addrToTb, begin))
              && b.falseBranch == Ptr(LinkOf(b, 0, f.addrToTb, begin))
  {
    hide *;
    HeapParts(order);
    PlainBlocks(tbs);
    SettleAllTb(tbs, f.addrToTb, begin);
    forall b | b in order
      ensures b.Valid() && Inside(order, b.trueBranch) && Inside(order, b.falseBranch)
    {
      if b in tbs { InsideLinks(order, f, b, begin); }
    }
    HeapWhole(order);
    forall b | b in order && b !in tbs
      ensures Snapshot(order)[b] == old(Snapshot(order))[b]
    {
      assert NodeOf(b) == old(NodeOf(b));
    }
  }

  /** The same, as a change of the graph. */
  method LinkSegment(ghost order: seq<TB>, f: File, s: Seg, ghost begins: map<TB, nat>)
    requires Heap(order) && AllSettled(Snapshot(order), f.addrToTb, begins)
    requires Openable(f, Snapshot(order), s, begins)
    modifies order
    ensures Heap(order)
    ensures Snapshot(order)
              == PutAll(old(Snapshot(order)), s.tbs, AllLinked(f, old(Snapshot(order)), s, begins), |s.tbs|)
  {
    hide *;
    ghost var p := Snapshot(order);
    OpenableParts(f, p, s, begins);
    forall b | b in s.tbs
      ensures b in order && |b.x86Offset| == 2 && |b.jmpReset| == 2 && b.trueBranch == null && b.falseBranch == null
      ensures b.Valid() && p[b].block == b.View() && |p[b].block.reset| == 2
    {
      BlankHere(order, b, f.addrToTb, begins);
      BlockOf(b.View());
    }
    LinkBlocks(order, f, s.tbs, s.begin);
    forall b | b in s.tbs
      ensures Shaped(p[b].block) && Snapshot(order)[b] == Node(p[b].block, Links(f, b, p[b].block.reset, s.begin))
    {
      LinkedNode(f, b, p[b].block, s.begin);
    }
    LinkedGraph(f, p, s, begins, Snapshot(order));
  }

  lemma BlockOf(v: Block)
    requires Shaped(v)
    ensures Unlinked(v).block == v && |v.reset| == 2
  {
  }

  lemma PlainBlocks(tbs: seq<TB>)
    requires forall b :: b in tbs ==> |b.x86Offset| == 2 && |b.jmpReset| == 2
    ensures Plain(tbs)
  {
  }

  /** A block without code yet. */
  predicate Undecoded(b: Block) { b.code == [] && b.bs == [] && b.bnes == [] && b.others == [] }

  /** A block with its relocations, ... */
  ghost function Related(f: File, b: Block, r: Record): Block
    requires Readable(f, r)
  {
    var rels := Slice(f.table, r.start, r.end).value;
    b.(rels := b.rels + rels, live := b.live + AllTrue(|rels|))
  }

  /** ... and then with its code. */
  ghost function Coded(f: File, b: Block, r: Record): Block {
    var code := Decoded(r.words, f.decode);
    b.(code := code,
       bs := Positions(code, ClassB), bnes := Positions(code, ClassBne), others := Positions(code, ClassOther))
  }

  lemma OpenedInSteps(f: File, b: TB, n: Node<TB>, r: Record, begin: nat)
    requires Readable(f, r) && |b.x86Offset| == 2 && Shaped(n.block) && Blank(n.block)
    ensures Node(Coded(f, Related(f, n.block, r), r), Links(f, b, n.block.reset, begin)) == Opened(f, b, n, r, begin)
    ensures Undecoded(Related(f, n.block, r))
  {
    hide Positions, Decoded, Links, Slice;
    assert n.block.live == [];
  }

  lemma ViewIs(tb: TB)
    requires tb.Valid()
    ensures tb.View() == Block(tb.insns.Contents(), tb.rels, tb.relsValid, tb.bInsns, tb.bneInsns, tb.otherBInsns,
                               tb.jmpReset, tb.jmpTarget)
  {
  }

  lemma ReadableParts(f: File, r: Record)
    requires Readable(f, r)
    ensures -TWO64 <= r.start && -TWO64 <= r.end && Slice(f.table, r.start, r.end).Some?
    ensures var rels := Slice(f.table, r.start, r.end).value; AllTrue(|rels|) == seq(|rels|, _ => true)
  {
  }

  /** TB_AddRels_Vistor::visit */
  method ReadRels(f: File, tb: TB, r: Record)
    requires tb.Valid() && Readable(f, r)
    modifies tb`rels, tb`relsValid
    ensures tb.Valid() && tb.View() == Related(f, old(tb.View()), r)
  {
    hide TB.Valid, TB.View, Slice, Readable, LinkList.Contents, AllTrue;
    ReadableParts(f, r);
    ViewIs(tb);
    tb.AddRels(f.table, r.start, r.end);
    ViewIs(tb);
  }

  /** DisassmbleVistor::visit */
  method ReadCode(f: File, tb: TB, r: Record)
    requires tb.Valid()
    requires Undecoded(tb.View())
    modifies tb`bInsns, tb`bneInsns, tb`otherBInsns, tb.insns, tb.insns.Repr
    ensures tb.Valid() && tb.View() == Coded(f, old(tb.View()), r) && fresh(tb.insns.Repr - old(tb.insns.Repr))
  {
    hide TB.Valid, TB.View, LinkList.Contents, Positions;
    ViewIs(tb);
    tb.Disassemble(r.words, f.decode);
    ViewIs(tb);
    assert tb.View().code == Decoded(r.words, f.decode);
  }

  lemma NodeAt(order: seq<TB>, tb: TB)
    requires Heap(order) && tb in order
    ensures tb.Valid() && Snapshot(order)[tb] == NodeOf(tb) && NodeOf(tb).block == tb.View()
    ensures NodeOf(tb) == Node(tb.View(), [Opt(tb.falseBranch), Opt(tb.trueBranch)])
  {
  }

  method AddRelsOne(ghost order: seq<TB>, f: File, tb: TB, r: Record)
    requires Heap(order) && tb in order && Readable(f, r)
    modifies tb`rels, tb`relsValid
    ensures Heap(order)
    ensures var n := old(Snapshot(order))[tb];
            Snapshot(order) == old(Snapshot(order))[tb := Node(Related(f, n.block, r), n.succ)]
  {
    hide *;
    HeapOpen(order, tb);
    DistantOpen(order, tb);
    LinksInside(order, tb);
    NodeAt(order, tb);
    ReadRels(f, tb, r);
    assert Others(order, tb);
    assert OtherNodes(order, tb) == old(OtherNodes(order, tb));
    DistantClose(order, tb);
    HeapClose(order, tb);
    NodeAt(order, tb);
  }

  lemma MapPut(p: map<TB, Node<TB>>, others: map<TB, Node<TB>>, b: TB, n: Node<TB>, m: Node<TB>)
    requires p == others[b := n]
    ensures others[b := m] == p[b := m]
  {
  }

  method DisassembleOne(ghost order: seq<TB>, f: File, tb: TB, r: Record)
    requires Heap(order) && tb in order
    requires Undecoded(Snapshot(order)[tb].block)
    modifies tb`bInsns, tb`bneInsns, tb`otherBInsns, tb.insns, tb.insns.Repr
    ensures Heap(order) && forall b :: b in order ==> fresh(b.insns.Repr - old(b.insns.Repr))
    ensures var n := old(Snapshot(order))[tb];
            Snapshot(order) == old(Snapshot(order))[tb := Node(Coded(f, n.block, r), n.succ)]
  {
    hide *;
    HeapOpen(order, tb);
    ghost var p, n, others := Snapshot(order), Snapshot(order)[tb], OtherNodes(order, tb);
    DistantOpen(order, tb);
    LinksInside(order, tb);
    NodeAt(order, tb);
    ReadCode(f, tb, r);
    assert Others(order, tb) && OtherNodes(order, tb) == others;
    DistantClose(order, tb);
    HeapClose(order, tb);
    NodeAt(order, tb);
    MapPut(p, others, tb, n, Node(Coded(f, n.block, r), n.succ));
  }

  /** The nodes ns are the segment's blocks with their relocations. */
  ghost predicate Relates(f: File, p: map<TB, Node<TB>>, s: Seg, ns: seq<Node<TB>>)
    requires |s.records| == |s.tbs| == |ns|
  {
    && (forall i, j :: 0 <= i < j < |s.tbs| ==> s.tbs[i] != s.tbs[j])
    && forall i :: 0 <= i < |s.tbs| ==>
         && s.tbs[i] in p && Readable(f, s.records[i])
         && ns[i] == Node(Related(f, p[s.tbs[i]].block, s.records[i]), p[s.tbs[i]].succ)
  }

  lemma RelatesAt(f: File, p: map<TB, Node<TB>>, s: Seg, ns: seq<Node<TB>>, i: nat)
    requires |s.records| == |s.tbs| == |ns| && Relates(f, p, s, ns) && i < |s.tbs|
    ensures var b, q := s.tbs[i], PutAll(p, s.tbs, ns, i);
            && b in q && Readable(f, s.records[i])
            && ns[i] == Node(Related(f, q[b].block, s.records[i]), q[b].succ)
            && PutAll(p, s.tbs, ns, i + 1) == q[b := ns[i]]
  {
    hide Readable, Related;
    PutAllAt(p, s.tbs, ns, i);
  }

  /** TB_AddRels_Vistor::start */
  method AddRelsSegment(ghost order: seq<TB>, f: File, s: Seg, ghost ns: seq<Node<TB>>)
    requires Heap(order) && |s.records| == |s.tbs| == |ns| && Relates(f, Snapshot(order), s, ns)
    modifies order
    ensures Heap(order) && Snapshot(order) == PutAll(old(Snapshot(order)), s.tbs, ns, |s.tbs|)
  {
    hide *;
    ghost var p := Snapshot(order);
    PutNone(p, s.tbs, ns);
    for i := 0 to |s.tbs|
      invariant Heap(order) && Snapshot(order) == PutAll(p, s.tbs, ns, i)
    {
      RelatesAt(f, p, s, ns, i);
      AddRelsOne(order, f, s.tbs[i], s.records[i]);
    }
  }

  lemma PutNone(p: map<TB, Node<TB>>, bs: seq<TB>, ns: seq<Node<TB>>)
    requires |ns| == |bs|
    ensures PutAll(p, bs, ns, 0) == p
  {
  }

  /** DisassmbleVistor::start */
  method DisassembleSegment(ghost order: seq<TB>, f: File, s: Seg, ghost ns: seq<Node<TB>>)
    requires Heap(order) && |s.records| == |s.tbs| == |ns| && Decodes(f, Snapshot(order), s, ns)
    modifies order, set b | b in order :: b.insns, set b, n | b in order && n in b.insns.Repr :: n
    ensures Heap(order) && Snapshot(order) == PutAll(old(Snapshot(order)), s.tbs, ns, |s.tbs|)
    ensures forall b :: b in order ==> fresh(b.insns.Repr - old(b.insns.Repr))
  {
    hide *;
    ghost var p := Snapshot(order);
    PutNone(p, s.tbs, ns);
    for i := 0 to |s.tbs|
      invariant Heap(order) && Snapshot(order) == PutAll(p, s.tbs, ns, i)
      invariant forall b :: b in order ==> fresh(b.insns.Repr - old(b.insns.Repr))
    {
      DisassembleNext(order, f, s, ns, p, i);
    }
  }

  /** The nodes ns are the segment's blocks decoded. */
  ghost predicate Decodes(f: File, p: map<TB, Node<TB>>, s: Seg, ns: seq<Node<TB>>)
    requires |s.records| == |s.tbs| == |ns|
  {
    && (forall i, j :: 0 <= i < j < |s.tbs| ==> s.tbs[i] != s.tbs[j])
    && forall i :: 0 <= i < |s.tbs| ==>
         && s.tbs[i] in p && Undecoded(p[s.tbs[i]].block)
         && ns[i] == Node(Coded(f, p[s.tbs[i]].block, s.records[i]), p[s.tbs[i]].succ)
  }

  lemma DecodesAt(f: File, p: map<TB, Node<TB>>, s: Seg, ns: seq<Node<TB>>, i: nat)
    requires |s.records| == |s.tbs| == |ns| && Decodes(f, p, s, ns) && i < |s.tbs|
    ensures var b, q := s.tbs[i], PutAll(p, s.tbs, ns, i);
            && b in q && Undecoded(q[b].block) && ns[i] == Node(Coded(f, q[b].block, s.records[i]), q[b].succ)
            && PutAll(p, s.tbs, ns, i + 1) == q[b := ns[i]]
  {
    hide Undecoded, Coded;
    PutAllAt(p, s.tbs, ns, i);
  }

  method DisassembleNext(ghost order: seq<TB>, f: File, s: Seg, ghost ns: seq<Node<TB>>, ghost p: map<TB, Node<TB>>,
                         i: nat)
    requires Heap(order) && |s.records| == |s.tbs| == |ns| && i < |s.tbs|
    requires Decodes(f, p, s, ns) && Snapshot(order) == PutAll(p, s.tbs, ns, i)
    modifies order, set b | b in order :: b.insns, set b, n | b in order && n in b.insns.Repr :: n
    ensures Heap(order) && Snapshot(order) == PutAll(p, s.tbs, ns, i + 1)
    ensures forall b :: b in order ==> fresh(b.insns.Repr - old(b.insns.Repr))
  {
    hide *;
    DecodesAt(f, p, s, ns, i);
    DisassembleOne(order, f, s.tbs[i], s.records[i]);
  }

  // ----- one segment -----

  /** The nodes that linking and relocation loading make of the segment's blocks. */
  ghost function AllRelated(f: File, p: map<TB, Node<TB>>, s: Seg, begins: map<TB, nat>): (ns: seq<Node<TB>>)
    requires Openable(f, p, s, begins)
    ensures |ns| == |s.tbs|
    ensures forall i :: 0 <= i < |s.tbs| ==>
              var b := s.tbs[i];
              && b in p && Shaped(p[b].block) && |b.x86Offset| == 2 && Readable(f, s.records[i])
              && ns[i] == Node(Related(f, p[b].block, s.records[i]), Links(f, b, p[b].block.reset, s.begin))
  {
    seq(|s.tbs|, i requires 0 <= i < |s.tbs| =>
          Node(Related(f, p[s.tbs[i]].block, s.records[i]), Links(f, s.tbs[i], p[s.tbs[i]].block.reset, s.begin)))
  }

  /** The three visitors one after the other open the segment. */
  lemma OpenPlan(f: File, p: map<TB, Node<TB>>, s: Seg, begins: map<TB, nat>)
    requires Openable(f, p, s, begins) && AllSettled(p, f.addrToTb, begins)
    ensures |s.records| == |s.tbs|
    ensures var ls, rs, ns := AllLinked(f, p, s, begins), AllRelated(f, p, s, begins), AllOpened(f, p, s, begins);
            var q := PutAll(p, s.tbs, ls, |s.tbs|);
            var q' := PutAll(q, s.tbs, rs, |s.tbs|);
            && Relates(f, q, s, rs)
            && Decodes(f, q', s, ns) && PutAll(q', s.tbs, ns, |s.tbs|) == PutAll(p, s.tbs, ns, |s.tbs|)
  {
    hide *;
    OpenableParts(f, p, s, begins);
    var ls, rs, ns := AllLinked(f, p, s, begins), AllRelated(f, p, s, begins), AllOpened(f, p, s, begins);
    var q := PutAll(p, s.tbs, ls, |s.tbs|);
    var q' := PutAll(q, s.tbs, rs, |s.tbs|);
    PutAllAt(p, s.tbs, ls, |s.tbs|);
    PutAllAt(q, s.tbs, rs, |s.tbs|);
    PutAgain(p, s.tbs, ls, rs);
    PutAgain(p, s.tbs, rs, ns);
    forall i | 0 <= i < |s.tbs|
      ensures s.tbs[i] in q' && Undecoded(q'[s.tbs[i]].block)
      ensures ns[i] == Node(Coded(f, q'[s.tbs[i]].block, s.records[i]), q'[s.tbs[i]].succ)
    {
      var b := s.tbs[i];
      StillBlank(p, b, f.addrToTb, begins);
      OpenedInSteps(f, b, p[b], s.records[i], s.begin);
    }
    RelatesAll(f, q, s, rs);
    DecodesAll(f, q', s, ns);
  }

  lemma RelatesAll(f: File, p: map<TB, Node<TB>>, s: Seg, ns: seq<Node<TB>>)
    requires |s.records| == |s.tbs| == |ns| && forall i, j :: 0 <= i < j < |s.tbs| ==> s.tbs[i] != s.tbs[j]
    requires forall i :: 0 <= i < |s.tbs| ==>
               && s.tbs[i] in p && Readable(f, s.records[i])
               && ns[i] == Node(Related(f, p[s.tbs[i]].block, s.records[i]), p[s.tbs[i]].succ)
    ensures Relates(f, p, s, ns)
  {
    hide Readable, Related;
  }

  lemma DecodesAll(f: File, p: map<TB, Node<TB>>, s: Seg, ns: seq<Node<TB>>)
    requires |s.records| == |s.tbs| == |ns| && forall i, j :: 0 <= i < j < |s.tbs| ==> s.tbs[i] != s.tbs[j]
    requires forall i :: 0 <= i < |s.tbs| ==>
               && s.tbs[i] in p && Undecoded(p[s.tbs[i]].block)
               && ns[i] == Node(Coded(f, p[s.tbs[i]].block, s.records[i]), p[s.tbs[i]].succ)
    ensures Decodes(f, p, s, ns)
  {
    hide Undecoded, Coded;
  }

  /** settle_all_tb and add_rels */
  method LinkAndRelate(ghost order: seq<TB>, f: File, s: Seg, ghost begins: map<TB, nat>)
    requires Heap(order) && AllSettled(Snapshot(order), f.addrToTb, begins)
    requires Openable(f, Snapshot(order), s, begins)
    modifies order
    ensures Heap(order) && |s.records| == |s.tbs|
    ensures Decodes(f, Snapshot(order), s, AllOpened(f, old(Snapshot(order)), s, begins))
    ensures var ns := AllOpened(f, old(Snapshot(order)), s, begins);
            PutAll(Snapshot(order), s.tbs, ns, |s.tbs|) == PutAll(old(Snapshot(order)), s.tbs, ns, |s.tbs|)
  {
    hide *;
    ghost var p := Snapshot(order);
    OpenPlan(f, p, s, begins);
    LinkSegment(order, f, s, begins);
    AddRelsSegment(order, f, s, AllRelated(f, p, s, begins));
  }

  /** settle_all_tb, add_rels and disassembly of a segment: the graph stays sound, and settled, now with the
      segment's blocks linked from its own beginning. */
  method OpenSegment(ghost order: seq<TB>, ghost total: nat, f: File, s: Seg, ghost begins: map<TB, nat>)
    requires Heap(order) && Sound(Snapshot(order), order, total) && AllSettled(Snapshot(order), f.addrToTb, begins)
    requires Openable(f, Snapshot(order), s, begins) && 4 * (total + Words(s, |s.records|)) < TWO32
    modifies order, set b | b in order :: b.insns, set b, n | b in order && n in b.insns.Repr :: n
    ensures Heap(order) && Sound(Snapshot(order), order, total + Words(s, |s.records|))
    ensures AllSettled(Snapshot(order), f.addrToTb, Begun(begins, s, |s.tbs|))
    ensures var p := old(Snapshot(order)); Snapshot(order) == PutAll(p, s.tbs, AllOpened(f, p, s, begins), |s.tbs|)
    ensures forall b :: b in order ==> fresh(b.insns.Repr - old(b.insns.Repr))
  {
    hide *;
    ghost var p := Snapshot(order);
    OpenableSize(f, p, s, begins);
    OpenedSound(f, p, order, total, s, begins, |s.tbs|);
    LinkAndRelate(order, f, s, begins);
    DisassembleSegment(order, f, s, AllOpened(f, p, s, begins));
  }

  lemma OpenableSize(f: File, p: map<TB, Node<TB>>, s: Seg, begins: map<TB, nat>)
    requires Openable(f, p, s, begins)
    ensures |s.records| == |s.tbs|
  {
  }

  // ----- all segments -----

  ghost function BegunAll(segs: seq<Seg>, n: nat): map<TB, nat>
    requires n <= |segs|
  {
    if n == 0 then map[] else Begun(BegunAll(segs, n - 1), segs[n - 1], |segs[n - 1].tbs|)
  }

  function AllWords(segs: seq<Seg>, n: nat): nat
    requires n <= |segs|
  {
    if n == 0 then 0 else AllWords(segs, n - 1) + Words(segs[n - 1], |segs[n - 1].records|)
  }

  /** Every segment may be opened when its turn comes: they have no block in common. */
  ghost predicate Planned(f: File, p: map<TB, Node<TB>>, segs: seq<Seg>) {
    && (forall b :: b in f.addrToTb.Values ==> b in p)
    && (forall i :: 0 <= i < |segs| ==> Openable(f, p, segs[i], map[]))
    && forall i, j, b :: 0 <= i < j < |segs| && b in segs[i].tbs ==> b !in segs[j].tbs
  }

  /** The blocks of the segments that are not open yet are as they were at the start. */
  ghost predicate Waiting(p: map<TB, Node<TB>>, q: map<TB, Node<TB>>, begins: map<TB, nat>) {
    q.Keys == p.Keys && forall b :: b in p && b !in begins ==> q[b] == p[b]
  }

  lemma {:induction false} BegunAllAt(segs: seq<Seg>, n: nat, b: TB)
    requires n <= |segs|
    ensures b in BegunAll(segs, n) <==> exists k :: 0 <= k < n && b in segs[k].tbs
  {
    if n > 0 {
      BegunAllAt(segs, n - 1, b);
      var s := segs[n - 1];
      BegunAt(BegunAll(segs, n - 1), s, |s.tbs|, b);
      assert s.tbs[..|s.tbs|] == s.tbs;
    }
  }

  lemma {:induction false} WordsUpTo(segs: seq<Seg>, n: nat)
    requires n <= |segs|
    ensures AllWords(segs, n) <= AllWords(segs, |segs|)
    decreases |segs| - n
  {
    if n < |segs| { WordsUpTo(segs, n + 1); }
  }

  lemma NextOpenable(f: File, p: map<TB, Node<TB>>, q: map<TB, Node<TB>>, segs: seq<Seg>, i: nat)
    requires Planned(f, p, segs) && i < |segs| && Waiting(p, q, BegunAll(segs, i))
    ensures Openable(f, q, segs[i], BegunAll(segs, i))
    ensures AllWords(segs, i + 1) == AllWords(segs, i) + Words(segs[i], |segs[i].records|) <= AllWords(segs, |segs|)
    ensures BegunAll(segs, i + 1) == Begun(BegunAll(segs, i), segs[i], |segs[i].tbs|)
  {
    hide Good, BegunAll, Begun;
    WordsUpTo(segs, i + 1);
    var s := segs[i];
    assert Openable(f, p, s, map[]);
    forall k | 0 <= k < |s.tbs|
      ensures s.tbs[k] !in BegunAll(segs, i) && q[s.tbs[k]] == p[s.tbs[k]]
    {
      BegunAllAt(segs, i, s.tbs[k]);
    }
    BegunStep(segs, i);
  }

  lemma BegunStep(segs: seq<Seg>, i: nat)
    requires i < |segs|
    ensures BegunAll(segs, i + 1) == Begun(BegunAll(segs, i), segs[i], |segs[i].tbs|)
  {
  }

  /** What the round needs of the segment just opened, and what it leaves to later ones. */
  lemma JustOpened(f: File, p: map<TB, Node<TB>>, q: map<TB, Node<TB>>, s: Seg, begins: map<TB, nat>)
    requires Openable(f, q, s, begins) && Waiting(p, q, begins)
    ensures var q', begun := PutAll(q, s.tbs, AllOpened(f, q, s, begins), |s.tbs|), Begun(begins, s, |s.tbs|);
            && Waiting(p, q', begun)
            && forall b :: b in s.tbs ==> b in q' && b in begun && BneThere(q'[b].block)
  {
    hide PutAll, Begun, BneThere, Good, Opened, AllOpened;
    var ns := AllOpened(f, q, s, begins);
    PutAllAt(q, s.tbs, ns, |s.tbs|);
    assert s.tbs[..|s.tbs|] == s.tbs;
    forall b | b in q
      ensures b in Begun(begins, s, |s.tbs|) <==> b in begins || b in s.tbs
    {
      BegunAt(begins, s, |s.tbs|, b);
    }
    forall i | 0 <= i < |s.tbs|
      ensures BneThere(ns[i].block)
    {
      OpenedOk(f, s.tbs[i], q[s.tbs[i]], s.records[i], s.begin);
    }
  }

  /** One round of the driver. */
  method Round(ghost order: seq<TB>, f: File, segs: seq<Seg>, i: nat, ghost p: map<TB, Node<TB>>)
    requires i < |segs| && Planned(f, p, segs) && 4 * AllWords(segs, |segs|) < TWO32
    requires Heap(order) && Sound(Snapshot(order), order, AllWords(segs, i))
    requires AllSettled(Snapshot(order), f.addrToTb, BegunAll(segs, i))
    requires Waiting(p, Snapshot(order), BegunAll(segs, i))
    modifies order, set b | b in order :: b.insns, set b, n | b in order && n in b.insns.Repr :: n
    ensures Heap(order) && Sound(Snapshot(order), order, AllWords(segs, i + 1))
    ensures AllSettled(Snapshot(order), f.addrToTb, BegunAll(segs, i + 1))
    ensures Waiting(p, Snapshot(order), BegunAll(segs, i + 1))
    ensures forall b :: b in order ==> fresh(b.insns.Repr - old(b.insns.Repr))
  {
    hide *;
    ghost var q, begins, total := Snapshot(order), BegunAll(segs, i), AllWords(segs, i);
    NextOpenable(f, p, q, segs, i);
    JustOpened(f, p, q, segs[i], begins);
    OpenSegment(order, total, f, segs[i], begins);
    ghost var q' := Snapshot(order);
    OpenableParts(f, q, segs[i], begins);
    RunSegment(order, AllWords(segs, i + 1), segs[i].tbs, f.addrToTb, BegunAll(segs, i + 1));
    StillWaiting(p, q', Snapshot(order), BegunAll(segs, i + 1));
  }

  lemma StillWaiting(p: map<TB, Node<TB>>, q: map<TB, Node<TB>>, r: map<TB, Node<TB>>, begins: map<TB, nat>)
    requires Waiting(p, q, begins) && r.Keys == q.Keys && forall b :: b in q && b !in begins ==> r[b] == q[b]
    ensures Waiting(p, r, begins)
  {
  }

  lemma {:induction false} NoCode(p: map<TB, Node<TB>>, order: seq<TB>)
    requires forall b :: b in order ==> b in p && p[b].block.code == []
    ensures CodeSize(p, order) == 0
  {
    if order != [] { NoCode(p, order[1..]); }
  }

  /** A file whose blocks are just constructed may be driven. */
  lemma StartSound(p: map<TB, Node<TB>>, order: seq<TB>, addrToTb: map<nat, TB>)
    requires AllSettled(p, addrToTb, map[]) && Lists(order, p) && forall b :: b in addrToTb.Values ==> b in p
    ensures Sound(p, order, 0)
  {
    hide AllSettled, Sound, Blank;
    forall b | b in order
      ensures b in p && p[b].block.code == []
    {
      StillBlank(p, b, addrToTb, map[]);
    }
    NoCode(p, order);
    SettledSound(p, order, addrToTb, map[]);
  }

  lemma HeapLists(order: seq<TB>)
    requires Heap(order) && forall i, j :: 0 <= i < j < |order| ==> order[i] != order[j]
    ensures Lists(order, Snapshot(order))
  {
  }

  /** At the end every block of every segment is well formed. */
  lemma AllWellFormed(order: seq<TB>, f: File, p: map<TB, Node<TB>>, segs: seq<Seg>)
    requires Heap(order) && Planned(f, p, segs) && p.Keys == Snapshot(order).Keys
    requires AllSettled(Snapshot(order), f.addrToTb, BegunAll(segs, |segs|))
    ensures forall i, b :: 0 <= i < |segs| && b in segs[i].tbs ==> b in order && b.Valid() && Wf(b.View())
  {
    hide Planned, AllSettled, BegunAll, Wf, NodeOf, TB.View, TB.Valid;
    forall i, b | 0 <= i < |segs| && b in segs[i].tbs
      ensures b in order && b.Valid() && Wf(b.View())
    {
      BegunAllAt(segs, |segs|, b);
      PlannedAt(f, p, segs, i, b);
      assert b in order;
      NodeAt(order, b);
      SettledAt(Snapshot(order), b, f.addrToTb, BegunAll(segs, |segs|));
    }
  }

  lemma Targets(f: File, p: map<TB, Node<TB>>, segs: seq<Seg>)
    requires Planned(f, p, segs)
    ensures forall b :: b in f.addrToTb.Values ==> b in p
  {
  }

  lemma PlannedAt(f: File, p: map<TB, Node<TB>>, segs: seq<Seg>, i: nat, b: TB)
    requires Planned(f, p, segs) && i < |segs| && b in segs[i].tbs
    ensures b in p
  {
    hide Good;
    assert Openable(f, p, segs[i], map[]);
  }

  /** The driver on a file with any number of segments whose records describe well-formed blocks, all code
      together below 2^32 bytes: every round finds what it needs, and in the end the graph is sound,
      every block settled, and every block of every segment well formed. */
  method Drive(ghost order: seq<TB>, f: File, segs: seq<Seg>)
    requires Heap(order) && forall i, j :: 0 <= i < j < |order| ==> order[i] != order[j]
    requires AllSettled(Snapshot(order), f.addrToTb, map[]) && Planned(f, Snapshot(order), segs)
    requires 4 * AllWords(segs, |segs|) < TWO32
    modifies order, set b | b in order :: b.insns, set b, n | b in order && n in b.insns.Repr :: n
    ensures Heap(order) && Sound(Snapshot(order), order, AllWords(segs, |segs|))
    ensures AllSettled(Snapshot(order), f.addrToTb, BegunAll(segs, |segs|))
    ensures forall i, b :: 0 <= i < |segs| && b in segs[i].tbs ==> b in order && b.Valid() && Wf(b.View())
  {
    hide *;
    ghost var p := Snapshot(order);
    HeapLists(order);
    Targets(f, p, segs);
    StartSound(p, order, f.addrToTb);
    Nothing(segs, p);
    for i := 0 to |segs|
      invariant Heap(order) && Sound(Snapshot(order), order, AllWords(segs, i))
      invariant AllSettled(Snapshot(order), f.addrToTb, BegunAll(segs, i))
      invariant Waiting(p, Snapshot(order), BegunAll(segs, i))
      invariant forall b :: b in order ==> fresh(b.insns.Repr - old(b.insns.Repr))
    {
      Round(order, f, segs, i, p);
    }
    AllWellFormed(order, f, p, segs);
  }

  lemma Nothing(segs: seq<Seg>, p: map<TB, Node<TB>>)
    ensures BegunAll(segs, 0) == map[] && AllWords(segs, 0) == 0 && Waiting(p, p, map[])
  {
  }
}
