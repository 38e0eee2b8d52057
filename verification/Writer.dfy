/** The writer of lib/AOTFileWriter: cursors running through a buffer in several loops, proved to
    leave exactly the image described by WroteSegs. */
module Writers {
  import opened Isa
  import opened Blocks
  import opened Merge
  import opened Layouts

  // ----- the image -----

  /** A writer's parameters: record sizes, region bases, the encoder, and the relocation counter's
      value when the write began. */
  datatype Setup = Setup(z: Sizes, b: Bases, encode: Insn -> nat, first: nat)

  function TbRecOf(u: Setup, g: Regions, t: TbVal): TbRec
    requires Shaped(t.block)
  {
    TbRec(t.head, t.block.reset, t.block.target,
          u.b.word + Size(u.z, g.words), |t.block.code| * 4,
          u.first + |g.rels|, u.first + |g.rels| + |LiveRels(t.block)| - 1)
  }

  function WroteTb(u: Setup, g: Regions, t: TbVal): Regions
    requires Shaped(t.block)
  {
    g.(tbs := g.tbs + [TbCell(TbRecOf(u, g, t))],
       rels := g.rels + RelCells(LiveRels(t.block)),
       words := g.words + WordCells(t.block.code, u.encode))
  }

  function WroteTbs(u: Setup, g: Regions, tbs: seq<TbVal>): Regions
    requires TbsShaped(tbs)
  {
    if tbs == [] then g else WroteTb(u, WroteTbs(u, g, tbs[..|tbs| - 1]), tbs[|tbs| - 1])
  }

  function NameCells(segs: seq<SegVal>): seq<Cell> { seq(|segs|, i requires 0 <= i < |segs| => NameCell(segs[i].name)) }

  function SegRecOf(u: Setup, g: Regions, front: seq<SegVal>, s: SegVal): SegRec {
    SegRec(s.info, u.b.name + Size(u.z, NameCells(front)), u.b.tb + Size(u.z, g.tbs), |s.tbs|, s.ismap)
  }

  function WroteSegs(u: Setup, g: Regions, segs: seq<SegVal>): Regions
    requires SegsShaped(segs)
  {
    if segs == [] then g
    else
      var front, s := segs[..|segs| - 1], segs[|segs| - 1];
      var h := WroteSegs(u, g, front);
      WroteTbs(u, h.(segs := h.segs + [SegCell(SegRecOf(u, h, front, s))]), s.tbs)
  }

  // ----- growing regions -----

  lemma FitsRels(z: Sizes, b: Bases, g: Regions, x: seq<Cell>, y: seq<Cell>)
    requires Fits(z, b, g.(rels := x + y))
    ensures Fits(z, b, g.(rels := x))
  {
    SizeAppend(z, x, y);
  }

  function LiveTo(t: Block, i: nat): seq<Rel>
    requires Shaped(t) && i <= |t.rels|
  {
    LiveShifted(t.rels[..i], t.live[..i], 0)
  }

  lemma LiveNext(t: Block, i: nat)
    requires Shaped(t) && i < |t.rels|
    ensures LiveTo(t, i + 1) == LiveTo(t, i) + if t.live[i] then [t.rels[i]] else []
  {
    assert t.rels[..i + 1] == t.rels[..i] + [t.rels[i]] && t.live[..i + 1] == t.live[..i] + [t.live[i]];
    LiveShiftedAppend(t.rels[..i], t.live[..i], [t.rels[i]], [t.live[i]], 0);
    assert [t.rels[i]][1..] == [] && [t.live[i]][1..] == [];
  }

  lemma LiveEnds(t: Block)
    requires Shaped(t)
    ensures LiveTo(t, 0) == [] && LiveTo(t, |t.rels|) == LiveRels(t)
  {
    assert t.rels[..|t.rels|] == t.rels && t.live[..|t.rels|] == t.live;
  }

  lemma LivePart(t: Block, i: nat)
    requires Shaped(t) && i <= |t.rels|
    ensures LiveRels(t) == LiveTo(t, i) + LiveShifted(t.rels[i..], t.live[i..], 0)
  {
    assert t.rels == t.rels[..i] + t.rels[i..] && t.live == t.live[..i] + t.live[i..];
    LiveShiftedAppend(t.rels[..i], t.live[..i], t.rels[i..], t.live[i..], 0);
  }

  lemma RelCellsAppend(x: seq<Rel>, y: seq<Rel>)
    ensures RelCells(x + y) == RelCells(x) + RelCells(y)
  {
  }

  /** Room for the relocations of t is room for those in front of position i. */
  lemma RoomForRels(z: Sizes, b: Bases, g: Regions, t: Block, i: nat)
    requires Shaped(t) && i <= |t.rels| && Fits(z, b, g.(rels := g.rels + RelCells(LiveRels(t))))
    ensures Fits(z, b, g.(rels := g.rels + RelCells(LiveTo(t, i))))
  {
    hide Fits, LiveTo;
    var rest := LiveShifted(t.rels[i..], t.live[i..], 0);
    LivePart(t, i);
    RelCellsAppend(LiveTo(t, i), rest);
    assert g.rels + RelCells(LiveRels(t)) == g.rels + RelCells(LiveTo(t, i)) + RelCells(rest);
    FitsRels(z, b, g, g.rels + RelCells(LiveTo(t, i)), RelCells(rest));
  }

  // ----- the buffer -----

  class Buffer {
    var hdr: Header
    var cells: map<nat, Cell>

    constructor (junk: Header)
      ensures cells == map[] && hdr == junk
    {
      hdr, cells := junk, map[];
    }
  }

  /** The static counter of TBWriter.cpp. */
  class TBWriter {
    const z: Sizes
    const encode: Insn -> nat
    var relCurIndex: nat

    constructor (sizes: Sizes, toCode: Insn -> nat)
      ensures relCurIndex == 0 && z == sizes && encode == toCode
    {
      z, encode, relCurIndex := sizes, toCode, 0;
    }

    /** The buffer holds the regions g, the counter counts their relocations, and the header's table
        offset is that of the first one if the counter began at zero; junk is what was there. */
    ghost predicate Wrote(buf: Buffer, u: Setup, junk: nat, g: Regions)
      reads this, buf
    {
      && buf.cells == Cells(u.z, u.b, g)
      && relCurIndex == u.first + |g.rels|
      && buf.hdr.reltableOffset == if u.first == 0 && g.rels != [] then u.b.rel else junk
    }

    /** Writing one relocation. */
    method PutRel(buf: Buffer, ghost u: Setup, ghost junk: nat, ghost g: Regions, rel: Rel, relBuf: nat)
      requires Sane(u.z) && Fits(u.z, u.b, Appended(g, RelCell(rel))) && Wrote(buf, u, junk, g)
      requires relBuf == u.b.rel + Size(u.z, g.rels)
      modifies this, buf
      ensures Wrote(buf, u, junk, Appended(g, RelCell(rel)))
      ensures buf.hdr == old(buf.hdr).(reltableOffset := buf.hdr.reltableOffset)
      ensures relBuf + u.z.rel == u.b.rel + Size(u.z, Appended(g, RelCell(rel)).rels)
    {
      PutLast(u.z, u.b, g, RelCell(rel));
      if relCurIndex == 0 {
        buf.hdr := buf.hdr.(reltableOffset := relBuf);
      }
      buf.cells := buf.cells[relBuf := RelCell(rel)];
      relCurIndex := relCurIndex + 1;
    }

    /** Reading back the TB record written last. */
    method LoadTb(buf: Buffer, at: nat, ghost u: Setup, ghost junk: nat, ghost g: Regions, ghost rec: TbRec)
      returns (r: TbRec)
      requires Sane(u.z) && Fits(u.z, u.b, Appended(g, TbCell(rec))) && Wrote(buf, u, junk, Appended(g, TbCell(rec)))
      requires at == u.b.tb + Size(u.z, g.tbs)
      ensures r == rec && relCurIndex == u.first + |g.rels|
    {
      RewriteTb(u.z, u.b, g, rec, rec);
      r := buf.cells[at].t;
    }

    /** A write to fields of the TB record written last. */
    method StoreTb(buf: Buffer, at: nat, r: TbRec, ghost u: Setup, ghost junk: nat, ghost g: Regions, ghost rec: TbRec)
      requires Sane(u.z) && Fits(u.z, u.b, Appended(g, TbCell(rec))) && Wrote(buf, u, junk, Appended(g, TbCell(rec)))
      requires at == u.b.tb + Size(u.z, g.tbs)
      modifies buf
      ensures Wrote(buf, u, junk, Appended(g, TbCell(r))) && Fits(u.z, u.b, Appended(g, TbCell(r)))
      ensures buf.hdr == old(buf.hdr)
    {
      hide Cells, Placed, Size, Fits;
      RewriteTb(u.z, u.b, g, rec, r);
      OtherRecord(u, g, rec, r);
      buf.cells := buf.cells[at := TbCell(r)];
    }

    /** handle_rels.  The test for a relocation that is still valid is left out: it starts from
        `true`, so its early return is never taken. */
    method HandleRels(buf: Buffer, t: TbVal, relBuf: nat, targetTb: nat, ghost u: Setup, ghost junk: nat,
                      ghost g: Regions, ghost rec: TbRec)
      requires Shaped(t.block) && z == u.z && Sane(z)
      requires Fits(u.z, u.b, Appended(RelsTo(g, t.block, |t.block.rels|), TbCell(rec)))
      requires Wrote(buf, u, junk, Appended(g, TbCell(rec)))
      requires targetTb == u.b.tb + Size(u.z, g.tbs) && relBuf == u.b.rel + Size(u.z, g.rels)
      modifies this, buf
      ensures var last := rec.(relStart := u.first + |g.rels|, relEnd := u.first + |g.rels| + |LiveRels(t.block)| - 1);
              Wrote(buf, u, junk, Appended(RelsTo(g, t.block, |t.block.rels|), TbCell(last)))
      ensures buf.hdr == old(buf.hdr).(reltableOffset := buf.hdr.reltableOffset)
    {
      hide Wrote, Fits, Placed, Size, LiveTo, LiveShifted, Cells, RelCells;
      RelsBegin(u, g, rec, t.block);
      var r := LoadTb(buf, targetTb, u, junk, g, rec);
      StoreTb(buf, targetTb, r.(relStart := relCurIndex), u, junk, g, rec);
      ghost var rec1 := r.(relStart := relCurIndex);
      var cur := relBuf;
      for i := 0 to |t.block.rels|
        invariant Wrote(buf, u, junk, Appended(RelsTo(g, t.block, i), TbCell(rec1)))
        invariant cur == u.b.rel + Size(u.z, RelsTo(g, t.block, i).rels)
        invariant buf.hdr == old(buf.hdr).(reltableOffset := buf.hdr.reltableOffset)
      {
        RelsNext(u, g, rec, rec1, t.block, i);
        if t.block.live[i] {
          PutRel(buf, u, junk, Appended(RelsTo(g, t.block, i), TbCell(rec1)), t.block.rels[i], cur);
          cur := cur + z.rel;
        }
      }
      RelsEnd(u, g, rec, rec1, t.block);
      r := LoadTb(buf, targetTb, u, junk, RelsTo(g, t.block, |t.block.rels|), rec1);
      StoreTb(buf, targetTb, r.(relEnd := relCurIndex - 1), u, junk, RelsTo(g, t.block, |t.block.rels|), rec1);
    }

    /** handle_assemble */
    method HandleAssemble(buf: Buffer, t: TbVal, insnPtr: nat, targetTb: nat, ghost u: Setup, ghost junk: nat,
                          ghost g: Regions, ghost rec: TbRec)
      requires encode == u.encode && Sane(u.z) && Fits(u.z, u.b, Appended(g, TbCell(rec)))
      requires Wrote(buf, u, junk, Appended(g, TbCell(rec)))
      requires targetTb == u.b.tb + Size(u.z, g.tbs) && insnPtr == u.b.word + Size(u.z, g.words)
      modifies this, buf
      ensures var r := rec.(cacheOffset := insnPtr, cacheSize := |t.block.code| * 4);
              && Wrote(buf, u, junk, Appended(WordsTo(u, g, t.block, |t.block.code|), TbCell(r)))
              && Fits(u.z, u.b, Appended(WordsTo(u, g, t.block, |t.block.code|), TbCell(r)))
      ensures buf.hdr == old(buf.hdr) && relCurIndex == old(relCurIndex)
    {
      hide Wrote, Fits, Placed, Size, Cells;
      var r := LoadTb(buf, targetTb, u, junk, g, rec);
      r := r.(cacheOffset := insnPtr, cacheSize := |t.block.code| * 4);
      StoreTb(buf, targetTb, r, u, junk, g, rec);
      var ptr := insnPtr;
      assert WordsTo(u, g, t.block, 0) == g;
      for i := 0 to |t.block.code|
        invariant Wrote(buf, u, junk, Appended(WordsTo(u, g, t.block, i), TbCell(r)))
        invariant Fits(u.z, u.b, Appended(WordsTo(u, g, t.block, i), TbCell(r)))
        invariant ptr == u.b.word + Size(u.z, WordsTo(u, g, t.block, i).words)
        invariant buf.hdr == old(buf.hdr) && relCurIndex == old(relCurIndex)
      {
        WordsNext(u, g, t.block, i);
        PutWord(buf, u, junk, Appended(WordsTo(u, g, t.block, i), TbCell(r)), encode(t.block.code[i]), ptr);
        ptr := ptr + 4;
      }
    }

    method PutWord(buf: Buffer, ghost u: Setup, ghost junk: nat, ghost g: Regions, insn: nat, ptr: nat)
      requires Sane(u.z) && Fits(u.z, u.b, g) && Wrote(buf, u, junk, g) && ptr == u.b.word + Size(u.z, g.words)
      modifies buf
      ensures Wrote(buf, u, junk, Appended(g, WordCell(insn))) && Fits(u.z, u.b, Appended(g, WordCell(insn)))
      ensures buf.hdr == old(buf.hdr)
      ensures ptr + 4 == u.b.word + Size(u.z, Appended(g, WordCell(insn)).words)
    {
      hide Cells, Placed, Size;
      PutLast(u.z, u.b, g, WordCell(insn));
      buf.cells := buf.cells[ptr := WordCell(insn)];
    }

    /** write_tb_helper_function: copies the record and clears what is filled in afterwards. */
    method CopyTb(buf: Buffer, t: TbVal, targetTb: nat, ghost u: Setup, ghost junk: nat, ghost g: Regions)
      requires Shaped(t.block) && Sane(u.z) && Fits(u.z, u.b, Appended(g, TbCell(TbRecOf(u, g, t))))
      requires Wrote(buf, u, junk, g)
      requires targetTb == u.b.tb + Size(u.z, g.tbs)
      modifies buf
      ensures var r := TbRec(t.head, t.block.reset, t.block.target, 0, 0, 0, 0);
              Wrote(buf, u, junk, Appended(g, TbCell(r))) && Fits(u.z, u.b, Appended(g, TbCell(r)))
      ensures buf.hdr == old(buf.hdr)
    {
      hide Cells, Placed, Size, Fits, LiveRels;
      var r := TbRec(t.head, t.block.reset, t.block.target, 0, 0, 0, 0);
      OtherRecord(u, g, TbRecOf(u, g, t), r);
      PutLast(u.z, u.b, g, TbCell(r));
      buf.cells := buf.cells[targetTb := TbCell(r)];
    }

    /** One round of TBWriter::write_to_buf. */
    method WriteTb(buf: Buffer, t: TbVal, cur: nat, insnPtr: nat, relBuf: nat, ghost u: Setup, ghost junk: nat,
                   ghost g: Regions)
      requires Shaped(t.block) && z == u.z && encode == u.encode && Sane(z)
      requires Fits(u.z, u.b, WroteTb(u, g, t)) && Wrote(buf, u, junk, g)
      requires cur == u.b.tb + Size(u.z, g.tbs) && insnPtr == u.b.word + Size(u.z, g.words)
      requires relBuf == u.b.rel + Size(u.z, g.rels)
      modifies this, buf
      ensures Wrote(buf, u, junk, WroteTb(u, g, t))
      ensures buf.hdr == old(buf.hdr).(reltableOffset := buf.hdr.reltableOffset)
    {
      hide Wrote, Fits, Placed, Size, LiveTo, LiveRels, Cells, RelCells, WordCells;
      ghost var n := |t.block.code|;
      LiveEnds(t.block);
      assert t.block.code[..n] == t.block.code;
      ghost var r0 := TbRec(t.head, t.block.reset, t.block.target, 0, 0, 0, 0);
      ghost var h := WordsTo(u, g, t.block, n);
      ghost var r1 := r0.(cacheOffset := insnPtr, cacheSize := n * 4);
      RoomForTb(u, g, t, h, r1);
      CopyTb(buf, t, cur, u, junk, g);
      HandleAssemble(buf, t, insnPtr, cur, u, junk, g, r0);
      HandleRels(buf, t, relBuf, cur, u, junk, h, r1);
    }

    /** TB::how_many_rel */
    method HowManyRel(t: Block) returns (count: nat)
      requires Shaped(t)
      ensures count == |LiveRels(t)|
    {
      count := 0;
      LiveEnds(t);
      for i := 0 to |t.rels|
        invariant count == |LiveTo(t, i)|
      {
        LiveNext(t, i);
        if t.live[i] { count := count + 1; }
      }
    }

    /** TBWriter::write_to_buf */
    method WriteTbs(buf: Buffer, tbs: seq<TbVal>, tbBuf: nat, relBuf: nat, codeBuf: nat, ghost u: Setup,
                    ghost junk: nat, ghost g: Regions)
      requires TbsShaped(tbs) && z == u.z && encode == u.encode && Sane(z)
      requires Fits(u.z, u.b, WroteTbs(u, g, tbs)) && Wrote(buf, u, junk, g)
      requires tbBuf == u.b.tb + Size(u.z, g.tbs) && codeBuf == u.b.word + Size(u.z, g.words)
      requires relBuf == u.b.rel + Size(u.z, g.rels)
      modifies this, buf
      ensures Wrote(buf, u, junk, WroteTbs(u, g, tbs))
      ensures buf.hdr == old(buf.hdr).(reltableOffset := buf.hdr.reltableOffset,
                                       reltableNum := u.first + |WroteTbs(u, g, tbs).rels|)
    {
      hide Fits, Placed, Size, LiveTo, LiveRels, Cells, RelCells, WordCells, WroteTb, WroteTbs, Wrote;
      var cur, insnPtr, rels := tbBuf, codeBuf, relBuf;
      WroteTbsNone(u, g);
      for i := 0 to |tbs|
        invariant Wrote(buf, u, junk, WroteTbs(u, g, tbs[..i]))
        invariant cur == u.b.tb + Size(u.z, WroteTbs(u, g, tbs[..i]).tbs)
        invariant insnPtr == u.b.word + Size(u.z, WroteTbs(u, g, tbs[..i]).words)
        invariant rels == u.b.rel + Size(u.z, WroteTbs(u, g, tbs[..i]).rels)
        invariant buf.hdr == old(buf.hdr).(reltableOffset := buf.hdr.reltableOffset)
      {
        WroteTbsNext(u, g, tbs, i);
        WriteTb(buf, tbs[i], cur, insnPtr, rels, u, junk, WroteTbs(u, g, tbs[..i]));
        WroteTbSizes(u, WroteTbs(u, g, tbs[..i]), tbs[i]);
        cur := cur + z.tb;
        insnPtr := insnPtr + |tbs[i].block.code| * 4;
        var count := HowManyRel(tbs[i].block);
        rels := rels + count * z.rel;
      }
      assert tbs[..|tbs|] == tbs;
      CounterIs(buf, u, junk, WroteTbs(u, g, tbs));
      NumWritten(buf, u, junk, WroteTbs(u, g, tbs));
    }

    lemma CounterIs(buf: Buffer, u: Setup, junk: nat, g: Regions)
      requires Wrote(buf, u, junk, g)
      ensures relCurIndex == u.first + |g.rels|
    {
    }

    method NumWritten(buf: Buffer, ghost u: Setup, ghost junk: nat, ghost g: Regions)
      requires Wrote(buf, u, junk, g)
      modifies buf
      ensures Wrote(buf, u, junk, g) && buf.hdr == old(buf.hdr).(reltableNum := relCurIndex)
    {
      buf.hdr := buf.hdr.(reltableNum := relCurIndex);
    }
  }

  lemma {:induction false} Uniform(z: Sizes, cs: seq<Cell>, w: nat)
    requires forall i :: 0 <= i < |cs| ==> Width(z, cs[i]) == w
    ensures Size(z, cs) == |cs| * w
  {
    if cs != [] {
      Uniform(z, cs[..|cs| - 1], w);
    }
  }

  lemma WroteTbSizes(u: Setup, g: Regions, t: TbVal)
    requires Shaped(t.block)
    ensures var h := WroteTb(u, g, t);
            && h.segs == g.segs && h.names == g.names && |h.rels| == |g.rels| + |LiveRels(t.block)|
            && Size(u.z, h.tbs) == Size(u.z, g.tbs) + u.z.tb
            && Size(u.z, h.words) == Size(u.z, g.words) + |t.block.code| * 4
            && Size(u.z, h.rels) == Size(u.z, g.rels) + |LiveRels(t.block)| * u.z.rel
  {
    PlacedLast(u.z, 0, g.tbs, TbCell(TbRecOf(u, g, t)));
    SizeAppend(u.z, g.words, WordCells(t.block.code, u.encode));
    Uniform(u.z, WordCells(t.block.code, u.encode), 4);
    SizeAppend(u.z, g.rels, RelCells(LiveRels(t.block)));
    Uniform(u.z, RelCells(LiveRels(t.block)), u.z.rel);
  }

  lemma WroteTbsNone(u: Setup, g: Regions)
    ensures forall tbs: seq<TbVal> :: TbsShaped(tbs[..0]) && WroteTbs(u, g, tbs[..0]) == g
  {
  }

  lemma FitsBefore(u: Setup, g: Regions, t: TbVal)
    requires Shaped(t.block) && Fits(u.z, u.b, WroteTb(u, g, t))
    ensures Fits(u.z, u.b, g)
  {
    hide Size, LiveRels, RelCells, WordCells;
    WroteTbSizes(u, g, t);
  }

  lemma WroteTbsLast(u: Setup, g: Regions, tbs: seq<TbVal>)
    requires TbsShaped(tbs) && tbs != []
    ensures TbsShaped(tbs[..|tbs| - 1]) && Shaped(tbs[|tbs| - 1].block)
    ensures WroteTbs(u, g, tbs) == WroteTb(u, WroteTbs(u, g, tbs[..|tbs| - 1]), tbs[|tbs| - 1])
  {
  }

  /** The regions after i + 1 of the blocks; if all of them fit, so do these. */
  lemma {:induction false} WroteTbsNext(u: Setup, g: Regions, tbs: seq<TbVal>, i: nat)
    requires TbsShaped(tbs) && i < |tbs| && Fits(u.z, u.b, WroteTbs(u, g, tbs))
    ensures TbsShaped(tbs[..i]) && TbsShaped(tbs[..i + 1])
    ensures WroteTbs(u, g, tbs[..i + 1]) == WroteTb(u, WroteTbs(u, g, tbs[..i]), tbs[i])
    ensures Fits(u.z, u.b, WroteTbs(u, g, tbs[..i + 1]))
    decreases |tbs|
  {
    hide WroteTbs, WroteTb, Fits;
    var front := tbs[..|tbs| - 1];
    WroteTbsLast(u, g, tbs);
    WroteTbsLast(u, g, tbs[..i + 1]);
    assert tbs[..i + 1][..i] == tbs[..i];
    if i == |tbs| - 1 {
      assert tbs[..i + 1] == tbs;
    } else {
      FitsBefore(u, WroteTbs(u, g, front), tbs[|tbs| - 1]);
      WroteTbsNext(u, g, front, i);
      assert front[..i + 1] == tbs[..i + 1];
    }
  }

  function WordsTo(u: Setup, g: Regions, t: Block, i: nat): Regions
    requires i <= |t.code|
  {
    g.(words := g.words + WordCells(t.code[..i], u.encode))
  }

  lemma WordsNext(u: Setup, g: Regions, t: Block, i: nat)
    requires i < |t.code|
    ensures WordsTo(u, g, t, i + 1) == Appended(WordsTo(u, g, t, i), WordCell(u.encode(t.code[i])))
  {
    assert t.code[..i + 1] == t.code[..i] + [t.code[i]];
    assert WordCells(t.code[..i + 1], u.encode) == WordCells(t.code[..i], u.encode) + [WordCell(u.encode(t.code[i]))];
  }

  lemma RoomForTb(u: Setup, g: Regions, t: TbVal, h: Regions, r: TbRec)
    requires Shaped(t.block) && Fits(u.z, u.b, WroteTb(u, g, t)) && h == WordsTo(u, g, t.block, |t.block.code|)
    ensures Fits(u.z, u.b, Appended(g, TbCell(TbRecOf(u, g, t))))
    ensures Fits(u.z, u.b, Appended(RelsTo(h, t.block, |t.block.rels|), TbCell(r)))
  {
    LiveEnds(t.block);
    SizeAppend(u.z, g.rels, RelCells(LiveRels(t.block)));
    OtherRecord(u, RelsTo(h, t.block, |t.block.rels|), TbRecOf(u, g, t), r);
  }

  /** The regions with the relocations of t up to position i. */
  function RelsTo(g: Regions, t: Block, i: nat): Regions
    requires Shaped(t) && i <= |t.rels|
  {
    g.(rels := g.rels + RelCells(LiveTo(t, i)))
  }

  lemma OtherRecord(u: Setup, g: Regions, rec: TbRec, rec1: TbRec)
    requires Fits(u.z, u.b, Appended(g, TbCell(rec)))
    ensures Fits(u.z, u.b, Appended(g, TbCell(rec1)))
  {
    PlacedLast(u.z, u.b.tb, g.tbs, TbCell(rec));
    PlacedLast(u.z, u.b.tb, g.tbs, TbCell(rec1));
  }

  lemma RelsBegin(u: Setup, g: Regions, rec: TbRec, t: Block)
    requires Shaped(t) && Fits(u.z, u.b, Appended(RelsTo(g, t, |t.rels|), TbCell(rec)))
    ensures RelsTo(g, t, 0) == g && Fits(u.z, u.b, Appended(g, TbCell(rec)))
  {
    hide Fits, LiveTo;
    LiveEnds(t);
    RoomForRels(u.z, u.b, Appended(g, TbCell(rec)), t, 0);
    assert g.rels + RelCells([]) == g.rels;
  }

  lemma RelsNext(u: Setup, g: Regions, rec: TbRec, rec1: TbRec, t: Block, i: nat)
    requires Shaped(t) && Fits(u.z, u.b, Appended(RelsTo(g, t, |t.rels|), TbCell(rec))) && i < |t.rels|
    ensures RelsTo(g, t, i + 1) == if t.live[i] then Appended(RelsTo(g, t, i), RelCell(t.rels[i])) else RelsTo(g, t, i)
    ensures Fits(u.z, u.b, Appended(RelsTo(g, t, i + 1), TbCell(rec1)))
    ensures t.live[i] ==>
              Appended(RelsTo(g, t, i + 1), TbCell(rec1))
                == Appended(Appended(RelsTo(g, t, i), TbCell(rec1)), RelCell(t.rels[i]))
  {
    hide Fits, LiveTo;
    LiveEnds(t);
    LiveNext(t, i);
    RoomForRels(u.z, u.b, Appended(g, TbCell(rec)), t, i + 1);
    OtherRecord(u, RelsTo(g, t, i + 1), rec, rec1);
    if t.live[i] {
      RelCellsAppend(LiveTo(t, i), [t.rels[i]]);
      assert g.rels + (RelCells(LiveTo(t, i)) + [RelCell(t.rels[i])])
               == g.rels + RelCells(LiveTo(t, i)) + [RelCell(t.rels[i])];
    }
  }

  lemma RelsEnd(u: Setup, g: Regions, rec: TbRec, rec1: TbRec, t: Block)
    requires Shaped(t) && Fits(u.z, u.b, Appended(RelsTo(g, t, |t.rels|), TbCell(rec)))
    ensures Fits(u.z, u.b, Appended(RelsTo(g, t, |t.rels|), TbCell(rec1)))
    ensures |RelsTo(g, t, |t.rels|).rels| == |g.rels| + |LiveRels(t)|
  {
    LiveEnds(t);
    OtherRecord(u, RelsTo(g, t, |t.rels|), rec, rec1);
  }
}
