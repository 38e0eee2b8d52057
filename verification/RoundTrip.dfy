/** A file written in one process and read in the next: what the reader's constructors, relocation
    loading and disassembly make of a block. */
module RoundTrips {
  import opened Isa
  import opened Blocks
  import opened LinkLists
  import opened SlotViews
  import opened Tbs
  import opened Merge
  import opened Layouts
  import opened Writers
  import opened SegmentWriters
  import opened Readers

  // ----- the reader -----

  /** The record of segment i, found through the header. */
  function SegRead(z: Sizes, cells: map<nat, Cell>, hdr: Header, i: nat): Option<SegRec> {
    var at := hdr.segtabOffset + i * z.seg;
    if i < hdr.segnum && at in cells && cells[at].SegCell? then Some(cells[at].s) else None
  }

  /** The record of block j of a segment, found through the segment's record. */
  function TbRead(z: Sizes, cells: map<nat, Cell>, s: SegRec, j: nat): Option<TbRec> {
    var at := s.tbOffset + j * z.tb;
    if j < s.tbNums && at in cells && cells[at].TbCell? then Some(cells[at].t) else None
  }

  /** The code of a block, found through its record and decoded word by word. */
  function CodeRead(cells: map<nat, Cell>, decode: nat -> Insn, t: TbRec): Option<seq<Insn>> {
    var words := ReadRun(cells, t.cacheOffset, 4, t.cacheSize / 4);
    if words.Some? && forall k :: 0 <= k < |words.value| ==> words.value[k].WordCell? then
      Some(seq(|words.value|, k requires 0 <= k < |words.value| => decode(words.value[k].w)))
    else None
  }

  /** The relocation table of the file, found through the header. */
  function TableRead(z: Sizes, cells: map<nat, Cell>, hdr: Header): Option<seq<Rel>> {
    var rs := ReadRun(cells, hdr.reltableOffset, z.rel, hdr.reltableNum);
    if rs.Some? && forall k :: 0 <= k < |rs.value| ==> rs.value[k].RelCell? then
      Some(seq(|rs.value|, k requires 0 <= k < |rs.value| => rs.value[k].r))
    else None
  }

  /** Block j of segment i as it is loaded from the file; None if a record is missing or the slice of
      the relocation table runs off its end. */
  function BlockRead(z: Sizes, cells: map<nat, Cell>, hdr: Header, decode: nat -> Insn, i: nat, j: nat): Option<Block> {
    var s := SegRead(z, cells, hdr, i);
    if s.None? then None
    else
      var t := TbRead(z, cells, s.value, j);
      if t.None? || t.value.relStart < 0 || t.value.relEnd < -1 then None
      else
        var code, table := CodeRead(cells, decode, t.value), TableRead(z, cells, hdr);
        if code.None? || table.None? then None
        else
          var rels := Slice(table.value, t.value.relStart, t.value.relEnd);
          if rels.None? then None else Some(Loaded(code.value, rels.value, t.value.reset, t.value.target))
  }

  // ----- what it gives back -----

  /** The block without its dead relocations. */
  function Cleaned(b: Block): Block
    requires Shaped(b)
  {
    b.(rels := LiveRels(b), live := AllTrue(|LiveRels(b)|))
  }

  /** The decoder undoes the encoder on this code. */
  predicate Decodes(code: seq<Insn>, encode: Insn -> nat, decode: nat -> Insn) {
    forall k :: 0 <= k < |code| ==> decode(encode(code[k])) == code[k]
  }

  lemma SegmentBack(u: Setup, segs: seq<SegVal>, junk: Header, i: nat)
    requires SegsShaped(segs) && Sane(u.z) && u.b == BasesOf(u.z, segs) && i < |segs|
    ensures SegRead(u.z, Cells(u.z, u.b, Final(u, segs)), FinalHeader(u, segs, junk), i) == Some(NthRec(u, segs, i))
  {
    hide Cells, Final, BasesOf, TbTotal, RelTotal;
    SegmentAt(u, segs, i);
  }

  /** The record that block j of segment i gets. */
  function RecOf(u: Setup, segs: seq<SegVal>, i: nat, j: nat): TbRec
    requires SegsShaped(segs) && i < |segs| && j < |segs[i].tbs|
  {
    var t := segs[i].tbs[j];
    TbRec(t.head, t.block.reset, t.block.target,
          u.b.word + CodeBefore(segs, i, j), |t.block.code| * 4,
          u.first + RelsBefore(segs, i, j), u.first + RelsBefore(segs, i, j) + |LiveRels(t.block)| - 1)
  }

  lemma TbBack(u: Setup, segs: seq<SegVal>, i: nat, j: nat, s: SegRec)
    requires SegsShaped(segs) && Sane(u.z) && u.b == BasesOf(u.z, segs) && i < |segs| && j < |segs[i].tbs|
    requires s.tbOffset == u.b.tb + TbTotal(segs[..i]) * u.z.tb && s.tbNums == |segs[i].tbs|
    ensures TbRead(u.z, Cells(u.z, u.b, Final(u, segs)), s, j) == Some(RecOf(u, segs, i, j))
  {
    hide Cells, Final, BasesOf, TbTotal, RelsBefore, CodeBefore, LiveRels;
    TbRecordAt(u, segs, i, j);
    Distribute(TbTotal(segs[..i]), j, u.z.tb);
  }

  lemma CodeBack(u: Setup, segs: seq<SegVal>, decode: nat -> Insn, i: nat, j: nat)
    requires SegsShaped(segs) && Sane(u.z) && u.b == BasesOf(u.z, segs) && i < |segs| && j < |segs[i].tbs|
    requires Decodes(segs[i].tbs[j].block.code, u.encode, decode)
    ensures CodeRead(Cells(u.z, u.b, Final(u, segs)), decode, RecOf(u, segs, i, j)) == Some(segs[i].tbs[j].block.code)
  {
    hide Cells, Final, BasesOf, RelsBefore, CodeBefore, LiveRels, ReadRun;
    CodeComesBack(u, segs, i, j);
    var code := segs[i].tbs[j].block.code;
    var cs := WordCells(code, u.encode);
    assert code == seq(|cs|, k requires 0 <= k < |cs| => decode(cs[k].w));
  }

  lemma TableBack(u: Setup, segs: seq<SegVal>, junk: Header)
    requires SegsShaped(segs) && Sane(u.z) && u.b == BasesOf(u.z, segs) && u.first == 0 && segs != []
    ensures TableRead(u.z, Cells(u.z, u.b, Final(u, segs)), FinalHeader(u, segs, junk)) == Some(AllRels(segs))
  {
    hide Cells, Final, BasesOf, FinalHeader, AllRels, ReadRun;
    TableComesBack(u, segs, junk);
    var all := AllRels(segs);
    var cs := RelCells(all);
    assert all == seq(|cs|, k requires 0 <= k < |cs| => cs[k].r);
  }

  /** Round trip.  Reading back the first file that a process writes rebuilds each block, only its dead
      relocations gone, if and only if a relocation was written by the end of that block: in
      front of the first one the written slice ends at -1, which the reader takes for a huge
      unsigned index. */
  lemma BlockComesBack(u: Setup, segs: seq<SegVal>, junk: Header, decode: nat -> Insn, i: nat, j: nat)
    requires SegsShaped(segs) && Sane(u.z) && u.b == BasesOf(u.z, segs) && u.first == 0 && FileBytes(u.z, segs) < TWO32
    requires i < |segs| && j < |segs[i].tbs|
    requires BranchExact(segs[i].tbs[j].block) && Decodes(segs[i].tbs[j].block.code, u.encode, decode)
    ensures var b, cells := segs[i].tbs[j].block, Cells(u.z, u.b, Final(u, segs));
            BlockRead(u.z, cells, FinalHeader(u, segs, junk), decode, i, j) == Some(Cleaned(b)) <==>
              RelsBefore(segs, i, j) + |LiveRels(b)| > 0
  {
    hide Cells, Final, BasesOf, FinalHeader, AllRels, RelsBefore, CodeBefore, LiveRels, Slice, SegRead, TbRead,
         CodeRead, TableRead, FileBytes, Positions, TbTotal;
    SegmentBack(u, segs, junk, i);
    TbBack(u, segs, i, j, SegRead(u.z, Cells(u.z, u.b, Final(u, segs)), FinalHeader(u, segs, junk), i).value);
    CodeBack(u, segs, decode, i, j);
    TableBack(u, segs, junk);
    RelsComeBack(u, segs, i, j);
  }

  // ----- what the block is worth without its dead relocations -----

  lemma {:induction false} LiveThere(rels: seq<Rel>, live: seq<bool>, r: Rel)
    requires |rels| == |live|
    ensures r in LiveShifted(rels, live, 0) <==> exists j :: 0 <= j < |rels| && live[j] && rels[j] == r
  {
    if rels != [] {
      LiveThere(rels[1..], live[1..], r);
      assert forall j :: 0 < j < |rels| ==> rels[j] == rels[1..][j - 1] && live[j] == live[1..][j - 1];
    }
  }

  lemma CleanedCovered(b: Block, q: nat)
    requires Shaped(b)
    ensures Covered(Cleaned(b), q) == Covered(b, q)
  {
    hide Covers;
    var live := LiveRels(b);
    if Covered(b, q) {
      var j :| 0 <= j < |b.rels| && b.live[j] && Covers(b.rels[j], q);
      LiveThere(b.rels, b.live, b.rels[j]);
      var k :| 0 <= k < |live| && live[k] == b.rels[j];
    }
    if Covered(Cleaned(b), q) {
      var k :| 0 <= k < |live| && Covers(live[k], q);
      LiveThere(b.rels, b.live, live[k]);
    }
  }

  /** Every pass sees the same slots in the block that comes back, and it is the same once more after
      another round. */
  lemma CleanedSame(b: Block)
    requires Shaped(b)
    ensures Shaped(Cleaned(b)) && Slots(Cleaned(b)) == Slots(b) && Cleaned(Cleaned(b)) == Cleaned(b)
  {
    forall q | 0 <= q < |b.code|
      ensures Covered(Cleaned(b), q) == Covered(b, q)
    {
      CleanedCovered(b, q);
    }
    AllLive(LiveRels(b));
  }

  /** It is well formed if the block was. */
  lemma CleanedWf(b: Block)
    requires Wf(b)
    ensures Wf(Cleaned(b))
  {
    hide Positions, RelFits, Apart;
    LiveSound(b.rels, b.live, |b.code|);
  }

  lemma {:induction false} LiveSound(rels: seq<Rel>, live: seq<bool>, len: nat)
    requires |rels| == |live| && RelsFit(rels, live, len) && RelsApart(rels, live)
    ensures var l := LiveShifted(rels, live, 0); RelsFit(l, AllTrue(|l|), len) && RelsApart(l, AllTrue(|l|))
  {
    hide RelFits, Apart;
    if rels != [] {
      var rest := LiveShifted(rels[1..], live[1..], 0);
      assert forall j :: 0 < j < |rels| ==> rels[j] == rels[1..][j - 1] && live[j] == live[1..][j - 1];
      LiveSound(rels[1..], live[1..], len);
      forall k | 0 <= k < |rest|
        ensures live[0] ==> Apart(rels[0], rest[k])
      {
        LiveThere(rels[1..], live[1..], rest[k]);
      }
    }
  }
}
