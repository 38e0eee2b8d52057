/** SegmentsWriter::write_to_buf (lib/AOTFileWriter/SegmentWriter.cpp): the regions are sized first
    and filled afterwards; they tile the buffer without gap or overlap. */
module SegmentWriters {
  import opened Isa
  import opened Merge
  import opened Layouts
  import opened Writers

  // ----- how much there is -----

  function RelsOf(tbs: seq<TbVal>): nat
    requires TbsShaped(tbs)
  {
    if tbs == [] then 0 else RelsOf(tbs[..|tbs| - 1]) + |LiveRels(tbs[|tbs| - 1].block)|
  }

  function CodeOf(tbs: seq<TbVal>): nat {
    if tbs == [] then 0 else CodeOf(tbs[..|tbs| - 1]) + |tbs[|tbs| - 1].block.code| * 4
  }

  function TbTotal(segs: seq<SegVal>): nat {
    if segs == [] then 0 else TbTotal(segs[..|segs| - 1]) + |segs[|segs| - 1].tbs|
  }

  function RelTotal(segs: seq<SegVal>): nat
    requires SegsShaped(segs)
  {
    if segs == [] then 0 else RelTotal(segs[..|segs| - 1]) + RelsOf(segs[|segs| - 1].tbs)
  }

  function CodeTotal(segs: seq<SegVal>): nat {
    if segs == [] then 0 else CodeTotal(segs[..|segs| - 1]) + CodeOf(segs[|segs| - 1].tbs)
  }

  /** The pointers that write_to_buf computes before it fills anything. */
  function BasesOf(z: Sizes, segs: seq<SegVal>): Bases
    requires SegsShaped(segs)
  {
    var name := z.hdr + |segs| * z.seg;
    var tb := name + |segs| * z.name;
    var rel := tb + TbTotal(segs) * z.tb;
    Bases(z.hdr, name, tb, rel, rel + RelTotal(segs) * z.rel)
  }

  function Empty(segs: seq<SegVal>): Regions { Regions([], NameCells(segs), [], [], []) }

  lemma Distribute(a: nat, b: nat, c: nat)
    ensures (a + b) * c == a * c + b * c
  {
  }

  lemma {:induction false} WroteTbsSizes(u: Setup, g: Regions, tbs: seq<TbVal>)
    requires TbsShaped(tbs)
    ensures var h := WroteTbs(u, g, tbs);
            && h.segs == g.segs && h.names == g.names && |h.rels| == |g.rels| + RelsOf(tbs)
            && Size(u.z, h.tbs) == Size(u.z, g.tbs) + |tbs| * u.z.tb
            && Size(u.z, h.words) == Size(u.z, g.words) + CodeOf(tbs)
            && Size(u.z, h.rels) == Size(u.z, g.rels) + RelsOf(tbs) * u.z.rel
    ensures TbsBytes(u.z, tbs) == |tbs| * u.z.tb + CodeOf(tbs) + RelsOf(tbs) * u.z.rel
  {
    hide LiveRels, WroteTb, Size;
    if tbs != [] {
      var front, t := tbs[..|tbs| - 1], tbs[|tbs| - 1];
      WroteTbsSizes(u, g, front);
      WroteTbSizes(u, WroteTbs(u, g, front), t);
      Distribute(|front|, 1, u.z.tb);
      Distribute(RelsOf(front), |LiveRels(t.block)|, u.z.rel);
    }
  }

  lemma {:induction false} WroteSegsSizes(u: Setup, g: Regions, segs: seq<SegVal>)
    requires SegsShaped(segs)
    ensures var h := WroteSegs(u, g, segs);
            && h.names == g.names && |h.rels| == |g.rels| + RelTotal(segs) && |h.segs| == |g.segs| + |segs|
            && Size(u.z, h.segs) == Size(u.z, g.segs) + |segs| * u.z.seg
            && Size(u.z, h.tbs) == Size(u.z, g.tbs) + TbTotal(segs) * u.z.tb
            && Size(u.z, h.words) == Size(u.z, g.words) + CodeTotal(segs)
            && Size(u.z, h.rels) == Size(u.z, g.rels) + RelTotal(segs) * u.z.rel
    ensures SegsBytes(u.z, segs) == |segs| * u.z.seg + |segs| * u.z.name
              + TbTotal(segs) * u.z.tb + CodeTotal(segs) + RelTotal(segs) * u.z.rel
  {
    hide Size, WroteTbs, RelsOf, CodeOf, TbsBytes;
    if segs != [] {
      var front, s := segs[..|segs| - 1], segs[|segs| - 1];
      var h := WroteSegs(u, g, front);
      var c := SegCell(SegRecOf(u, h, front, s));
      WroteSegsSizes(u, g, front);
      WroteTbsSizes(u, h.(segs := h.segs + [c]), s.tbs);
      PlacedLast(u.z, 0, h.segs, c);
      Distribute(|front|, 1, u.z.seg);
      Distribute(|front|, 1, u.z.name);
      Distribute(TbTotal(front), |s.tbs|, u.z.tb);
      Distribute(RelTotal(front), RelsOf(s.tbs), u.z.rel);
    }
  }

  /** The regions meet exactly, and the last one ends where how_many_bytes says. */
  lemma Tiles(u: Setup, segs: seq<SegVal>)
    requires SegsShaped(segs) && u.b == BasesOf(u.z, segs)
    ensures var g := WroteSegs(u, Empty(segs), segs);
            && Fits(u.z, u.b, g)
            && u.b.seg + Size(u.z, g.segs) == u.b.name && u.b.name + Size(u.z, g.names) == u.b.tb
            && u.b.tb + Size(u.z, g.tbs) == u.b.rel && u.b.rel + Size(u.z, g.rels) == u.b.word
            && u.b.word + Size(u.z, g.words) == FileBytes(u.z, segs)
  {
    WroteSegsSizes(u, Empty(segs), segs);
    Uniform(u.z, NameCells(segs), u.z.name);
  }

  /** So the buffer is one unbroken run of records: contiguous, disjoint, and inside the bytes counted. */
  lemma OneRun(u: Setup, segs: seq<SegVal>)
    requires SegsShaped(segs) && u.b == BasesOf(u.z, segs) && Sane(u.z)
    ensures var g := WroteSegs(u, Empty(segs), segs);
            var all := g.segs + g.names + g.tbs + g.rels + g.words;
            Cells(u.z, u.b, g) == Placed(u.z, u.z.hdr, all) && u.z.hdr + Size(u.z, all) == FileBytes(u.z, segs)
  {
    hide Placed, Size, WroteSegs, SegsBytes;
    var g := WroteSegs(u, Empty(segs), segs);
    Tiles(u, segs);
    PlacedAppend(u.z, u.z.hdr, g.segs, g.names);
    PlacedAppend(u.z, u.z.hdr, g.segs + g.names, g.tbs);
    PlacedAppend(u.z, u.z.hdr, g.segs + g.names + g.tbs, g.rels);
    PlacedAppend(u.z, u.z.hdr, g.segs + g.names + g.tbs + g.rels, g.words);
    SizeAppend(u.z, g.segs, g.names);
    SizeAppend(u.z, g.segs + g.names, g.tbs);
    SizeAppend(u.z, g.segs + g.names + g.tbs, g.rels);
    SizeAppend(u.z, g.segs + g.names + g.tbs + g.rels, g.words);
  }

  // ----- filling them -----

  /** The segment records after the first loop: only the name offset is set. */
  function NamedSegs(u: Setup, segs: seq<SegVal>, blank: SegRec, i: nat): seq<Cell>
    requires i <= |segs|
  {
    seq(i, k requires 0 <= k < i => SegCell(blank.(libNameOffset := u.b.name + Size(u.z, NameCells(segs[..k])))))
  }

  function FirstPass(u: Setup, segs: seq<SegVal>, blank: SegRec, i: nat): Regions
    requires i <= |segs|
  {
    Regions(NamedSegs(u, segs, blank, i), NameCells(segs[..i]), [], [], [])
  }

  function SecondPass(u: Setup, segs: seq<SegVal>, blank: SegRec, i: nat): Regions
    requires SegsShaped(segs) && i <= |segs|
  {
    var g := WroteSegs(u, Empty(segs), segs[..i]);
    g.(segs := g.segs + NamedSegs(u, segs, blank, |segs|)[i..])
  }

  lemma FirstPassSizes(u: Setup, segs: seq<SegVal>, blank: SegRec, i: nat)
    requires i <= |segs|
    ensures Size(u.z, NamedSegs(u, segs, blank, i)) == i * u.z.seg && Size(u.z, NameCells(segs[..i])) == i * u.z.name
    ensures Size(u.z, NamedSegs(u, segs, blank, |segs|)[i..]) == (|segs| - i) * u.z.seg
  {
    hide Size;
    Uniform(u.z, NamedSegs(u, segs, blank, i), u.z.seg);
    Uniform(u.z, NamedSegs(u, segs, blank, |segs|)[i..], u.z.seg);
    Uniform(u.z, NameCells(segs[..i]), u.z.name);
  }

  lemma FirstPassFits(u: Setup, segs: seq<SegVal>, blank: SegRec, i: nat)
    requires SegsShaped(segs) && u.b == BasesOf(u.z, segs) && i <= |segs|
    ensures Fits(u.z, u.b, FirstPass(u, segs, blank, i))
  {
    hide Size, TbTotal, RelTotal;
    FirstPassSizes(u, segs, blank, i);
    PlacedNone(u.z, 0);
    Distribute(i, |segs| - i, u.z.seg);
    Distribute(i, |segs| - i, u.z.name);
  }

  lemma FirstPassNext(u: Setup, segs: seq<SegVal>, blank: SegRec, i: nat)
    requires i < |segs|
    ensures FirstPass(u, segs, blank, i + 1) ==
              Appended(Appended(FirstPass(u, segs, blank, i), NameCell(segs[i].name)),
                       SegCell(blank.(libNameOffset := u.b.name + Size(u.z, NameCells(segs[..i])))))
  {
    assert NameCells(segs[..i + 1]) == NameCells(segs[..i]) + [NameCell(segs[i].name)];
  }

  /** One round of the first loop. */
  method NameOne(w: TBWriter, buf: Buffer, name: string, curSeg: nat, nameCur: nat, blank: SegRec,
                 ghost u: Setup, ghost junk: nat, ghost segs: seq<SegVal>, ghost i: nat)
    requires SegsShaped(segs) && i < |segs| && name == segs[i].name && |name| < u.z.name
    requires Sane(u.z) && u.b == BasesOf(u.z, segs) && w.Wrote(buf, u, junk, FirstPass(u, segs, blank, i))
    requires curSeg == u.b.seg + Size(u.z, NamedSegs(u, segs, blank, i))
    requires nameCur == u.b.name + Size(u.z, NameCells(segs[..i]))
    modifies buf
    ensures w.Wrote(buf, u, junk, FirstPass(u, segs, blank, i + 1)) && buf.hdr == old(buf.hdr)
  {
    hide Cells, Placed, Size, Fits, BasesOf;
    ghost var g := FirstPass(u, segs, blank, i);
    ghost var h := Appended(g, NameCell(name));
    FirstPassNext(u, segs, blank, i);
    FirstPassFits(u, segs, blank, i + 1);
    PutLast(u.z, u.b, h, SegCell(blank.(libNameOffset := nameCur)));
    PutLast(u.z, u.b, g, NameCell(name));
    buf.cells := buf.cells[nameCur := NameCell(name)];
    buf.cells := buf.cells[curSeg := SegCell(blank.(libNameOffset := nameCur))];
  }

  lemma {:induction false} WroteTbsElsewhere(u: Setup, g: Regions, x: seq<Cell>, tbs: seq<TbVal>)
    requires TbsShaped(tbs)
    ensures WroteTbs(u, g.(segs := x), tbs) == WroteTbs(u, g, tbs).(segs := x)
  {
    hide LiveRels, RelCells, WordCells, Size;
    if tbs != [] {
      WroteTbsElsewhere(u, g, x, tbs[..|tbs| - 1]);
    }
  }

  lemma WroteSegsLast(u: Setup, g: Regions, segs: seq<SegVal>)
    requires SegsShaped(segs) && segs != []
    ensures var front, s := segs[..|segs| - 1], segs[|segs| - 1];
            && SegsShaped(front) && TbsShaped(s.tbs)
            && var h := WroteSegs(u, g, front);
               WroteSegs(u, g, segs) == WroteTbs(u, h, s.tbs).(segs := h.segs + [SegCell(SegRecOf(u, h, front, s))])
  {
    hide WroteTbs;
    var front, s := segs[..|segs| - 1], segs[|segs| - 1];
    var h := WroteSegs(u, g, front);
    WroteTbsElsewhere(u, h, h.segs + [SegCell(SegRecOf(u, h, front, s))], s.tbs);
  }

  lemma TbsGrow(u: Setup, g: Regions, tbs: seq<TbVal>)
    requires TbsShaped(tbs)
    ensures Size(u.z, g.tbs) <= Size(u.z, WroteTbs(u, g, tbs).tbs)
    ensures Size(u.z, g.rels) <= Size(u.z, WroteTbs(u, g, tbs).rels)
  {
    hide Size, WroteTbs, RelsOf, CodeOf, TbsBytes;
    WroteTbsSizes(u, g, tbs);
  }

  /** What is written only grows. */
  lemma {:induction false} Grows(u: Setup, g: Regions, segs: seq<SegVal>, i: nat)
    requires SegsShaped(segs) && i <= |segs|
    ensures Size(u.z, WroteSegs(u, g, segs[..i]).tbs) <= Size(u.z, WroteSegs(u, g, segs).tbs)
    ensures Size(u.z, WroteSegs(u, g, segs[..i]).rels) <= Size(u.z, WroteSegs(u, g, segs).rels)
    decreases |segs|
  {
    hide Size, WroteTbs, WroteSegs;
    if i == |segs| {
      assert segs[..i] == segs;
    } else {
      var front, s := segs[..|segs| - 1], segs[|segs| - 1];
      WroteSegsLast(u, g, segs);
      TbsGrow(u, WroteSegs(u, g, front), s.tbs);
      assert front[..i] == segs[..i];
      Grows(u, g, front, i);
    }
  }

  lemma SecondPassFits(u: Setup, segs: seq<SegVal>, blank: SegRec, i: nat)
    requires SegsShaped(segs) && u.b == BasesOf(u.z, segs) && i <= |segs|
    ensures Fits(u.z, u.b, SecondPass(u, segs, blank, i))
  {
    hide Size, WroteTbs, WroteSegs, TbTotal, RelTotal, CodeTotal;
    var g := WroteSegs(u, Empty(segs), segs[..i]);
    Tiles(u, segs);
    WroteSegsSizes(u, Empty(segs), segs);
    WroteSegsSizes(u, Empty(segs), segs[..i]);
    FirstPassSizes(u, segs, blank, i);
    PlacedNone(u.z, 0);
    Grows(u, Empty(segs), segs, i);
    SizeAppend(u.z, g.segs, NamedSegs(u, segs, blank, |segs|)[i..]);
    Distribute(i, |segs| - i, u.z.seg);
  }

  lemma SecondPassNext(u: Setup, segs: seq<SegVal>, blank: SegRec, i: nat)
    requires SegsShaped(segs) && i < |segs|
    ensures var g := WroteSegs(u, Empty(segs), segs[..i]);
            var rest := NamedSegs(u, segs, blank, |segs|)[i + 1..];
            && |g.segs| == i && TbsShaped(segs[i].tbs)
            && SecondPass(u, segs, blank, i) == g.(segs := g.segs + [NamedSegs(u, segs, blank, |segs|)[i]] + rest)
            && SecondPass(u, segs, blank, i + 1)
            == WroteTbs(u, g.(segs := g.segs + [SegCell(SegRecOf(u, g, segs[..i], segs[i]))] + rest), segs[i].tbs)
  {
    hide Size, WroteTbs, WroteSegs;
    var g := WroteSegs(u, Empty(segs), segs[..i]);
    var all := NamedSegs(u, segs, blank, |segs|);
    WroteSegsSizes(u, Empty(segs), segs[..i]);
    assert segs[..i + 1][..i] == segs[..i];
    WroteSegsLast(u, Empty(segs), segs[..i + 1]);
    WroteTbsElsewhere(u, g, g.segs + [SegCell(SegRecOf(u, g, segs[..i], segs[i]))] + all[i + 1..], segs[i].tbs);
    assert g.segs + all[i..] == g.segs + [all[i]] + all[i + 1..];
  }

  /** One round of the second loop. */
  method FillOne(w: TBWriter, buf: Buffer, segs: seq<SegVal>, i: nat, curSeg: nat, tbCur: nat, relCur: nat,
                 codeCur: nat, ghost blank: SegRec, ghost u: Setup, ghost junk: nat)
    requires SegsShaped(segs) && i < |segs| && w.z == u.z && w.encode == u.encode && Sane(u.z)
    requires u.b == BasesOf(u.z, segs)
    requires w.Wrote(buf, u, junk, SecondPass(u, segs, blank, i))
    requires var g := WroteSegs(u, Empty(segs), segs[..i]);
             && curSeg == u.b.seg + Size(u.z, g.segs) && tbCur == u.b.tb + Size(u.z, g.tbs)
             && relCur == u.b.rel + Size(u.z, g.rels) && codeCur == u.b.word + Size(u.z, g.words)
    modifies w, buf
    ensures w.Wrote(buf, u, junk, SecondPass(u, segs, blank, i + 1))
    ensures buf.hdr == old(buf.hdr).(reltableOffset := buf.hdr.reltableOffset,
                                     reltableNum := u.first + |SecondPass(u, segs, blank, i + 1).rels|)
  {
    hide Cells, Placed, Size, Fits, BasesOf, WroteTbs, WroteSegs, SecondPass;
    ghost var g := WroteSegs(u, Empty(segs), segs[..i]);
    ghost var all := NamedSegs(u, segs, blank, |segs|);
    SecondPassNext(u, segs, blank, i);
    SecondPassFits(u, segs, blank, i);
    SecondPassFits(u, segs, blank, i + 1);
    ghost var rec := SegRecOf(u, g, segs[..i], segs[i]);
    RewriteSeg(u.z, u.b, g, g.segs, all[i].s, rec, all[i + 1..]);
    NameAt(u, segs, blank, i);
    var s := buf.cells[curSeg].s;
    buf.cells := buf.cells[curSeg :=
      SegCell(s.(info := segs[i].info, ismap := segs[i].ismap, tbOffset := tbCur, tbNums := |segs[i].tbs|))];
    w.WriteTbs(buf, segs[i].tbs, tbCur, relCur, codeCur, u, junk, g.(segs := g.segs + [SegCell(rec)] + all[i + 1..]));
  }

  lemma NameAt(u: Setup, segs: seq<SegVal>, blank: SegRec, i: nat)
    requires i < |segs|
    ensures NamedSegs(u, segs, blank, |segs|)[i]
              == SegCell(blank.(libNameOffset := u.b.name + Size(u.z, NameCells(segs[..i]))))
  {
  }

  /** Segment::how_many_rel and how_many_code */
  method HowMany(w: TBWriter, tbs: seq<TbVal>) returns (rels: nat, code: nat)
    requires TbsShaped(tbs)
    ensures rels == RelsOf(tbs) && code == CodeOf(tbs)
  {
    hide LiveRels;
    rels, code := 0, 0;
    for i := 0 to |tbs|
      invariant rels == RelsOf(tbs[..i]) && code == CodeOf(tbs[..i])
    {
      assert tbs[..i + 1][..i] == tbs[..i];
      var r := w.HowManyRel(tbs[i].block);
      rels, code := rels + r, code + |tbs[i].block.code| * 4;
    }
    assert tbs[..|tbs|] == tbs;
  }

  /** What the segments up to i have written, seen from the next one. */
  lemma CursorsNext(u: Setup, segs: seq<SegVal>, i: nat)
    requires SegsShaped(segs) && i < |segs|
    ensures var g, h := WroteSegs(u, Empty(segs), segs[..i]), WroteSegs(u, Empty(segs), segs[..i + 1]);
            && Size(u.z, h.segs) == Size(u.z, g.segs) + u.z.seg
            && Size(u.z, h.tbs) == Size(u.z, g.tbs) + |segs[i].tbs| * u.z.tb
            && Size(u.z, h.rels) == Size(u.z, g.rels) + RelsOf(segs[i].tbs) * u.z.rel
            && Size(u.z, h.words) == Size(u.z, g.words) + CodeOf(segs[i].tbs)
  {
    hide Size, WroteTbs, WroteSegs, RelsOf, CodeOf, TbsBytes;
    var g := WroteSegs(u, Empty(segs), segs[..i]);
    assert segs[..i + 1][..i] == segs[..i];
    WroteSegsLast(u, Empty(segs), segs[..i + 1]);
    WroteTbsSizes(u, g, segs[i].tbs);
    PlacedLast(u.z, 0, g.segs, SegCell(SegRecOf(u, g, segs[..i], segs[i])));
  }

  /** The header as the write leaves it; without segments the relocation count is never set. */
  function FinalHeader(u: Setup, segs: seq<SegVal>, junk: Header): Header
    requires SegsShaped(segs)
  {
    var n := RelTotal(segs);
    Header(u.z.hdr, |segs|, if u.first == 0 && n > 0 then u.b.rel else junk.reltableOffset,
           if segs == [] then junk.reltableNum else u.first + n)
  }

  /** SegmentsWriter::write_to_buf into a fresh buffer: afterwards it holds exactly the image, as one
      run of records from the header on that ends at how_many_bytes.  `blank` is what the
      memory of a segment record happened to hold. */
  method WriteToBuf(w: TBWriter, buf: Buffer, segs: seq<SegVal>, blank: SegRec)
    requires SegsShaped(segs) && Sane(w.z) && buf.cells == map[]
    requires forall s :: s in segs ==> |s.name| < w.z.name
    requires FileBytes(w.z, segs) < TWO32
    modifies w, buf
    ensures var u := Setup(w.z, BasesOf(w.z, segs), w.encode, old(w.relCurIndex));
            var g := WroteSegs(u, Empty(segs), segs);
            var all := g.segs + g.names + g.tbs + g.rels + g.words;
            && buf.cells == Cells(u.z, u.b, g) == Placed(w.z, w.z.hdr, all)
            && w.z.hdr + Size(w.z, all) == FileBytes(w.z, segs)
            && buf.hdr == FinalHeader(u, segs, old(buf.hdr)) && w.relCurIndex == u.first + RelTotal(segs)
  {
    hide Cells, Placed, Size, Fits, WroteTbs, WroteSegs, SecondPass, FirstPass, NamedSegs, TBWriter.Wrote, TbTotal,
         RelTotal, RelsOf, CodeOf, FileBytes;
    ghost var u, junk := Setup(w.z, BasesOf(w.z, segs), w.encode, w.relCurIndex), buf.hdr;
    buf.hdr := buf.hdr.(segtabOffset := w.z.hdr, segnum := |segs|);
    var tbTotal, relTotal := NameAll(w, buf, segs, blank, u, junk);
    var namesBegin := w.z.hdr + |segs| * w.z.seg;
    var tbTableCur := namesBegin + |segs| * w.z.name;
    var relCur := tbTableCur + tbTotal * w.z.tb;
    var codeCur := relCur + relTotal * w.z.rel;
    FillAll(w, buf, segs, blank, tbTableCur, relCur, codeCur, u, junk);
    Finished(w, buf, segs, blank, u, junk);
  }

  /** The first loop. */
  method NameAll(w: TBWriter, buf: Buffer, segs: seq<SegVal>, blank: SegRec, ghost u: Setup, ghost junk: Header)
    returns (tbTotal: nat, relTotal: nat)
    requires SegsShaped(segs) && w.z == u.z && Sane(u.z) && u.b == BasesOf(u.z, segs)
    requires forall s :: s in segs ==> |s.name| < u.z.name
    requires buf.cells == map[] && w.relCurIndex == u.first && buf.hdr.reltableOffset == junk.reltableOffset
    modifies buf
    ensures w.Wrote(buf, u, junk.reltableOffset, FirstPass(u, segs, blank, |segs|)) && buf.hdr == old(buf.hdr)
    ensures tbTotal == TbTotal(segs) && relTotal == RelTotal(segs)
  {
    hide Cells, Placed, Size, Fits, FirstPass, NamedSegs, TBWriter.Wrote, RelsOf, CodeOf;
    var curSeg := w.z.hdr;
    var nameCur := w.z.hdr + |segs| * w.z.seg;
    tbTotal, relTotal := 0, 0;
    FirstPassNone(w, buf, u, junk.reltableOffset, segs, blank);
    for i := 0 to |segs|
      invariant w.Wrote(buf, u, junk.reltableOffset, FirstPass(u, segs, blank, i)) && buf.hdr == old(buf.hdr)
      invariant curSeg == u.b.seg + Size(u.z, NamedSegs(u, segs, blank, i))
      invariant nameCur == u.b.name + Size(u.z, NameCells(segs[..i]))
      invariant tbTotal == TbTotal(segs[..i]) && relTotal == RelTotal(segs[..i])
    {
      NameOne(w, buf, segs[i].name, curSeg, nameCur, blank, u, junk.reltableOffset, segs, i);
      var rels, _ := HowMany(w, segs[i].tbs);
      assert segs[..i + 1][..i] == segs[..i];
      tbTotal, relTotal := tbTotal + |segs[i].tbs|, relTotal + rels;
      FirstPassSizes(u, segs, blank, i);
      FirstPassSizes(u, segs, blank, i + 1);
      Distribute(i, 1, w.z.seg);
      Distribute(i, 1, w.z.name);
      curSeg, nameCur := curSeg + w.z.seg, nameCur + w.z.name;
    }
    assert segs[..|segs|] == segs;
  }

  lemma FirstPassNone(w: TBWriter, buf: Buffer, u: Setup, junk: nat, segs: seq<SegVal>, blank: SegRec)
    requires buf.cells == map[] && w.relCurIndex == u.first && buf.hdr.reltableOffset == junk
    ensures w.Wrote(buf, u, junk, FirstPass(u, segs, blank, 0))
    ensures Size(u.z, NamedSegs(u, segs, blank, 0)) == 0 && Size(u.z, NameCells(segs[..0])) == 0
  {
  }

  /** The second loop. */
  method FillAll(w: TBWriter, buf: Buffer, segs: seq<SegVal>, ghost blank: SegRec, tbTable: nat, relTable: nat,
                 code: nat, ghost u: Setup, ghost junk: Header)
    requires SegsShaped(segs) && w.z == u.z && w.encode == u.encode && Sane(u.z) && u.b == BasesOf(u.z, segs)
    requires tbTable == u.b.tb && relTable == u.b.rel && code == u.b.word
    requires w.Wrote(buf, u, junk.reltableOffset, FirstPass(u, segs, blank, |segs|))
    modifies w, buf
    ensures w.Wrote(buf, u, junk.reltableOffset, SecondPass(u, segs, blank, |segs|))
    ensures buf.hdr == old(buf.hdr).(reltableOffset := buf.hdr.reltableOffset,
                                     reltableNum := if segs == [] then old(buf.hdr.reltableNum)
                                                    else u.first + |SecondPass(u, segs, blank, |segs|).rels|)
  {
    hide Cells, Placed, Size, Fits, WroteTbs, WroteSegs, SecondPass, FirstPass, NamedSegs, TBWriter.Wrote, TbTotal,
         RelTotal, RelsOf, CodeOf;
    var curSeg, tbCur, relCur, codeCur := w.z.hdr, tbTable, relTable, code;
    SecondPassNone(u, segs, blank);
    for i := 0 to |segs|
      invariant w.Wrote(buf, u, junk.reltableOffset, SecondPass(u, segs, blank, i))
      invariant curSeg == u.b.seg + Size(u.z, WroteSegs(u, Empty(segs), segs[..i]).segs)
      invariant tbCur == u.b.tb + Size(u.z, WroteSegs(u, Empty(segs), segs[..i]).tbs)
      invariant relCur == u.b.rel + Size(u.z, WroteSegs(u, Empty(segs), segs[..i]).rels)
      invariant codeCur == u.b.word + Size(u.z, WroteSegs(u, Empty(segs), segs[..i]).words)
      invariant buf.hdr == old(buf.hdr).(reltableOffset := buf.hdr.reltableOffset,
                                         reltableNum := if i == 0 then old(buf.hdr.reltableNum)
                                                        else u.first + |SecondPass(u, segs, blank, i).rels|)
    {
      FillOne(w, buf, segs, i, curSeg, tbCur, relCur, codeCur, blank, u, junk.reltableOffset);
      var rels, bytes := HowMany(w, segs[i].tbs);
      CursorsNext(u, segs, i);
      curSeg, tbCur, relCur, codeCur :=
        curSeg + w.z.seg, tbCur + |segs[i].tbs| * w.z.tb, relCur + rels * w.z.rel, codeCur + bytes;
    }
  }

  lemma SecondPassNone(u: Setup, segs: seq<SegVal>, blank: SegRec)
    requires SegsShaped(segs)
    ensures SecondPass(u, segs, blank, 0) == FirstPass(u, segs, blank, |segs|)
    ensures var g := WroteSegs(u, Empty(segs), segs[..0]);
            Size(u.z, g.segs) == 0 && Size(u.z, g.tbs) == 0 && Size(u.z, g.rels) == 0 && Size(u.z, g.words) == 0
  {
    assert segs[..|segs|] == segs;
    assert [] + NamedSegs(u, segs, blank, |segs|)[0..] == NamedSegs(u, segs, blank, |segs|);
  }

  lemma Finished(w: TBWriter, buf: Buffer, segs: seq<SegVal>, blank: SegRec, u: Setup, junk: Header)
    requires SegsShaped(segs) && Sane(u.z) && u.b == BasesOf(u.z, segs)
    requires w.Wrote(buf, u, junk.reltableOffset, SecondPass(u, segs, blank, |segs|))
    ensures var g := WroteSegs(u, Empty(segs), segs);
            var all := g.segs + g.names + g.tbs + g.rels + g.words;
            && SecondPass(u, segs, blank, |segs|) == g && |g.rels| == RelTotal(segs)
            && buf.cells == Cells(u.z, u.b, g) == Placed(u.z, u.z.hdr, all)
            && u.z.hdr + Size(u.z, all) == FileBytes(u.z, segs)
            && w.relCurIndex == u.first + RelTotal(segs)
            && buf.hdr.reltableOffset == if u.first == 0 && RelTotal(segs) > 0 then u.b.rel else junk.reltableOffset
  {
    hide Cells, Placed, Size, Fits, WroteTbs, WroteSegs, RelTotal;
    assert segs[..|segs|] == segs;
    WroteSegsSizes(u, Empty(segs), segs);
    OneRun(u, segs);
    var g := WroteSegs(u, Empty(segs), segs);
    assert g.segs + NamedSegs(u, segs, blank, |segs|)[|segs|..] == g.segs;
  }
}
