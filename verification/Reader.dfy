/** Reading a written file back: where each record is found, and that every block comes back with
    its code and its live relocations (lib/Vistor/AddRelsVistor.cpp and the constructors of
    lib/AOT_class/aot_class.cpp, without the file access). */
module Readers {
  import opened Isa
  import opened Blocks
  import opened LinkLists
  import opened Tbs
  import opened Merge
  import opened Layouts
  import opened Writers
  import opened SegmentWriters

  // ----- what the reader does -----

  /** n records of width w, one behind the other, from offset base on; None if one is missing. */
  function ReadRun(cells: map<nat, Cell>, base: nat, w: nat, n: nat): Option<seq<Cell>> {
    if n == 0 then Some([])
    else
      var front, at := ReadRun(cells, base, w, n - 1), base + (n - 1) * w;
      if front.Some? && at in cells then Some(front.value + [cells[at]]) else None
  }

  // ----- finding a record -----

  function RegionOf(g: Regions, c: Cell): seq<Cell> {
    match c
    case SegCell(_) => g.segs
    case NameCell(_) => g.names
    case TbCell(_) => g.tbs
    case RelCell(_) => g.rels
    case WordCell(_) => g.words
  }

  function BaseOf(b: Bases, c: Cell): nat {
    match c
    case SegCell(_) => b.seg
    case NameCell(_) => b.name
    case TbCell(_) => b.tb
    case RelCell(_) => b.rel
    case WordCell(_) => b.word
  }

  lemma FindMerged(s: map<nat, Cell>, n: map<nat, Cell>, t: map<nat, Cell>, r: map<nat, Cell>, w: map<nat, Cell>,
                   k: nat)
    ensures k in s && k !in n && k !in t && k !in r && k !in w ==>
              k in s + n + t + r + w && (s + n + t + r + w)[k] == s[k]
    ensures k in n && k !in t && k !in r && k !in w ==> k in s + n + t + r + w && (s + n + t + r + w)[k] == n[k]
    ensures k in t && k !in r && k !in w ==> k in s + n + t + r + w && (s + n + t + r + w)[k] == t[k]
    ensures k in r && k !in w ==> k in s + n + t + r + w && (s + n + t + r + w)[k] == r[k]
    ensures k in w ==> k in s + n + t + r + w && (s + n + t + r + w)[k] == w[k]
  {
  }

  lemma PlacedAt(z: Sizes, base: nat, x: seq<Cell>, c: Cell, y: seq<Cell>)
    requires Sane(z)
    ensures base + Size(z, x) in Placed(z, base, x + [c] + y) && Placed(z, base, x + [c] + y)[base + Size(z, x)] == c
    ensures base + Size(z, x) < base + Size(z, x + [c] + y)
  {
    hide Placed, Size;
    PlacedUpdate(z, base, x, c, c, y);
    PlacedBetween(z, base, x, c, y);
  }

  lemma Find(z: Sizes, b: Bases, g: Regions, x: seq<Cell>, c: Cell, y: seq<Cell>)
    requires Sane(z) && Fits(z, b, g) && RegionOf(g, c) == x + [c] + y
    ensures BaseOf(b, c) + Size(z, x) in Cells(z, b, g) && Cells(z, b, g)[BaseOf(b, c) + Size(z, x)] == c
  {
    hide Placed, Size;
    var k := BaseOf(b, c) + Size(z, x);
    PlacedAt(z, BaseOf(b, c), x, c, y);
    RegionKeys(z, b, g);
    FindMerged(Placed(z, b.seg, g.segs), Placed(z, b.name, g.names),
               Placed(z, b.tb, g.tbs), Placed(z, b.rel, g.rels), Placed(z, b.word, g.words), k);
  }

  predicate AllLike(cs: seq<Cell>, c: Cell) {
    forall i :: 0 <= i < |cs| ==> (match c
      case SegCell(_) => cs[i].SegCell?
      case NameCell(_) => cs[i].NameCell?
      case TbCell(_) => cs[i].TbCell?
      case RelCell(_) => cs[i].RelCell?
      case WordCell(_) => cs[i].WordCell?)
  }

  /** Reading as many records as were written reads what was written. */
  lemma {:induction false} FindRun(z: Sizes, b: Bases, g: Regions, x: seq<Cell>, m: seq<Cell>, y: seq<Cell>, like: Cell)
    requires Sane(z) && Fits(z, b, g) && RegionOf(g, like) == x + m + y && AllLike(m, like)
    ensures ReadRun(Cells(z, b, g), BaseOf(b, like) + Size(z, x), Width(z, like), |m|) == Some(m)
    decreases |m|
  {
    hide Cells, Fits, Size;
    if m != [] {
      var front, c := m[..|m| - 1], m[|m| - 1];
      assert m == front + [c];
      assert x + m + y == x + front + ([c] + y) && x + m + y == (x + front) + [c] + y;
      FindRun(z, b, g, x, front, [c] + y, like);
      Find(z, b, g, x + front, c, y);
      SizeAppend(z, x, front);
      Uniform(z, front, Width(z, like));
    }
  }

  // ----- where the records of one block are -----

  predicate Extends(h: Regions, g: Regions) {
    h.segs <= g.segs && h.names == g.names && h.tbs <= g.tbs && h.rels <= g.rels && h.words <= g.words
  }

  lemma ExtendsTrans(a: Regions, b: Regions, c: Regions)
    requires Extends(a, b) && Extends(b, c)
    ensures Extends(a, c)
  {
  }

  lemma {:induction false} ExtendsTbs(u: Setup, g: Regions, tbs: seq<TbVal>, j: nat)
    requires TbsShaped(tbs) && j <= |tbs|
    ensures Extends(WroteTbs(u, g, tbs[..j]), WroteTbs(u, g, tbs))
    decreases |tbs|
  {
    hide LiveRels, RelCells, WordCells, Size;
    if j == |tbs| {
      assert tbs[..j] == tbs;
    } else {
      var front := tbs[..|tbs| - 1];
      assert front[..j] == tbs[..j];
      ExtendsTbs(u, g, front, j);
      ExtendsTrans(WroteTbs(u, g, tbs[..j]), WroteTbs(u, g, front), WroteTbs(u, g, tbs));
    }
  }

  lemma {:induction false} ExtendsSegs(u: Setup, g: Regions, segs: seq<SegVal>, i: nat)
    requires SegsShaped(segs) && i <= |segs|
    ensures Extends(WroteSegs(u, g, segs[..i]), WroteSegs(u, g, segs))
    decreases |segs|
  {
    hide WroteTbs, Size;
    if i == |segs| {
      assert segs[..i] == segs;
    } else {
      var front, s := segs[..|segs| - 1], segs[|segs| - 1];
      assert front[..i] == segs[..i];
      ExtendsSegs(u, g, front, i);
      var h := WroteSegs(u, g, front);
      var h' := h.(segs := h.segs + [SegCell(SegRecOf(u, h, front, s))]);
      ExtendsTbs(u, h', s.tbs, 0);
      WroteTbsNone(u, h');
      ExtendsTrans(WroteSegs(u, g, segs[..i]), h, h');
      ExtendsTrans(WroteSegs(u, g, segs[..i]), h', WroteSegs(u, g, segs));
    }
  }

  /** Segment i as the second loop finds it, its record written. */
  function SegBegun(u: Setup, segs: seq<SegVal>, i: nat): Regions
    requires SegsShaped(segs) && i < |segs|
  {
    var h := WroteSegs(u, Empty(segs), segs[..i]);
    h.(segs := h.segs + [SegCell(SegRecOf(u, h, segs[..i], segs[i]))])
  }

  /** What is in front of block j of segment i: blocks, relocations and bytes of code. */
  function TbsBefore(segs: seq<SegVal>, i: nat, j: nat): nat
    requires i < |segs|
  {
    TbTotal(segs[..i]) + j
  }

  function RelsBefore(segs: seq<SegVal>, i: nat, j: nat): nat
    requires SegsShaped(segs) && i < |segs| && j <= |segs[i].tbs|
  {
    RelTotal(segs[..i]) + RelsOf(segs[i].tbs[..j])
  }

  function CodeBefore(segs: seq<SegVal>, i: nat, j: nat): nat
    requires i < |segs| && j <= |segs[i].tbs|
  {
    CodeTotal(segs[..i]) + CodeOf(segs[i].tbs[..j])
  }

  function Final(u: Setup, segs: seq<SegVal>): Regions
    requires SegsShaped(segs)
  {
    WroteSegs(u, Empty(segs), segs)
  }

  lemma StateAt(u: Setup, segs: seq<SegVal>, i: nat, j: nat)
    requires SegsShaped(segs) && i < |segs| && j < |segs[i].tbs|
    ensures var h := WroteTbs(u, SegBegun(u, segs, i), segs[i].tbs[..j]);
            && Extends(WroteTb(u, h, segs[i].tbs[j]), Final(u, segs))
            && Size(u.z, h.tbs) == TbsBefore(segs, i, j) * u.z.tb
            && |h.rels| == RelsBefore(segs, i, j) && Size(u.z, h.words) == CodeBefore(segs, i, j)
  {
    hide WroteTbs, WroteSegs, WroteTb, Size, TbTotal, RelTotal, CodeTotal, RelsOf, CodeOf;
    var tbs, g := segs[i].tbs, SegBegun(u, segs, i);
    var front := segs[..i + 1];
    assert front[..i] == segs[..i] && tbs[..j + 1][..j] == tbs[..j];
    WroteTbsLast(u, g, tbs[..j + 1]);
    ExtendsTbs(u, g, tbs, j + 1);
    WroteSegsEnd(u, segs, i);
    ExtendsSegs(u, Empty(segs), segs, i + 1);
    ExtendsTrans(WroteTbs(u, g, tbs[..j + 1]), WroteTbs(u, g, tbs), Final(u, segs));
    WroteSegsSizes(u, Empty(segs), segs[..i]);
    WroteTbsSizes(u, g, tbs[..j]);
    PlacedNone(u.z, 0);
    Distribute(TbTotal(segs[..i]), j, u.z.tb);
  }

  lemma WroteSegsEnd(u: Setup, segs: seq<SegVal>, i: nat)
    requires SegsShaped(segs) && i < |segs|
    ensures WroteSegs(u, Empty(segs), segs[..i + 1]) == WroteTbs(u, SegBegun(u, segs, i), segs[i].tbs)
  {
    hide WroteTbs;
    assert segs[..i + 1][..i] == segs[..i];
  }

  /** The record of block j of segment i is where the tables say, with its own place in the code and
      in the relocation table: code and relocation slices follow each other without a gap. */
  lemma TbRecordAt(u: Setup, segs: seq<SegVal>, i: nat, j: nat)
    requires SegsShaped(segs) && Sane(u.z) && u.b == BasesOf(u.z, segs) && i < |segs| && j < |segs[i].tbs|
    ensures var t, at := segs[i].tbs[j], u.b.tb + TbsBefore(segs, i, j) * u.z.tb;
            && at in Cells(u.z, u.b, Final(u, segs))
            && Cells(u.z, u.b, Final(u, segs))[at] == TbCell(TbRec(t.head, t.block.reset, t.block.target,
                 u.b.word + CodeBefore(segs, i, j), |t.block.code| * 4,
                 u.first + RelsBefore(segs, i, j), u.first + RelsBefore(segs, i, j) + |LiveRels(t.block)| - 1))
  {
    hide Cells, Fits, Size, WroteTbs, WroteSegs, TbsBefore, RelsBefore, CodeBefore, LiveRels;
    var g, h := Final(u, segs), WroteTbs(u, SegBegun(u, segs, i), segs[i].tbs[..j]);
    var c := TbCell(TbRecOf(u, h, segs[i].tbs[j]));
    StateAt(u, segs, i, j);
    Tiles(u, segs);
    assert g.tbs == h.tbs + [c] + g.tbs[|h.tbs| + 1..];
    Find(u.z, u.b, g, h.tbs, c, g.tbs[|h.tbs| + 1..]);
  }

  /** Its code is read back from there. */
  lemma CodeComesBack(u: Setup, segs: seq<SegVal>, i: nat, j: nat)
    requires SegsShaped(segs) && Sane(u.z) && u.b == BasesOf(u.z, segs) && i < |segs| && j < |segs[i].tbs|
    ensures var t := segs[i].tbs[j];
            ReadRun(Cells(u.z, u.b, Final(u, segs)), u.b.word + CodeBefore(segs, i, j), 4, |t.block.code|)
              == Some(WordCells(t.block.code, u.encode))
  {
    hide Cells, Fits, Size, WroteTbs, WroteSegs, CodeBefore, LiveRels, ReadRun;
    var g, h := Final(u, segs), WroteTbs(u, SegBegun(u, segs, i), segs[i].tbs[..j]);
    var m := WordCells(segs[i].tbs[j].block.code, u.encode);
    StateAt(u, segs, i, j);
    Tiles(u, segs);
    var y := g.words[|h.words| + |m|..];
    assert g.words == h.words + m + y;
    FindRun(u.z, u.b, g, h.words, m, y, WordCell(0));
  }

  /** The record of segment i: its name and its block records are at these offsets. */
  function NthRec(u: Setup, segs: seq<SegVal>, i: nat): SegRec
    requires SegsShaped(segs) && i < |segs|
  {
    var s := segs[i];
    SegRec(s.info, u.b.name + i * u.z.name, u.b.tb + TbTotal(segs[..i]) * u.z.tb, |s.tbs|, s.ismap)
  }

  lemma SegRecordAt(u: Setup, segs: seq<SegVal>, i: nat)
    requires SegsShaped(segs) && Sane(u.z) && u.b == BasesOf(u.z, segs) && i < |segs|
    ensures var cells := Cells(u.z, u.b, Final(u, segs));
            && u.z.hdr + i * u.z.seg in cells
            && cells[u.z.hdr + i * u.z.seg] == SegCell(NthRec(u, segs, i))
  {
    hide Cells, Fits, Size, WroteTbs, WroteSegs, TbTotal, RelTotal, CodeTotal;
    var g, h := Final(u, segs), WroteSegs(u, Empty(segs), segs[..i]);
    var c := SegCell(SegRecOf(u, h, segs[..i], segs[i]));
    Tiles(u, segs);
    SegsBegin(u, segs, i);
    WroteSegsSizes(u, Empty(segs), segs[..i]);
    PlacedNone(u.z, 0);
    Uniform(u.z, NameCells(segs[..i]), u.z.name);
    Find(u.z, u.b, g, h.segs, c, g.segs[i + 1..]);
  }

  lemma SegsBegin(u: Setup, segs: seq<SegVal>, i: nat)
    requires SegsShaped(segs) && i < |segs|
    ensures var g, h := Final(u, segs).segs, WroteSegs(u, Empty(segs), segs[..i]);
            i < |g| && g == h.segs + [SegCell(SegRecOf(u, h, segs[..i], segs[i]))] + g[i + 1..]
  {
    hide Size, WroteTbs, WroteSegs, TbTotal, RelTotal, CodeTotal;
    WroteSegsEnd(u, segs, i);
    WroteTbsSizes(u, SegBegun(u, segs, i), segs[i].tbs);
    ExtendsSegs(u, Empty(segs), segs, i + 1);
    WroteSegsSizes(u, Empty(segs), segs);
    WroteSegsSizes(u, Empty(segs), segs[..i]);
  }

  lemma NameCellAt(u: Setup, segs: seq<SegVal>, i: nat)
    requires SegsShaped(segs) && Sane(u.z) && u.b == BasesOf(u.z, segs) && i < |segs|
    ensures var cells := Cells(u.z, u.b, Final(u, segs));
            u.b.name + i * u.z.name in cells && cells[u.b.name + i * u.z.name] == NameCell(segs[i].name)
  {
    hide Cells, Fits, Size, WroteTbs, WroteSegs, TbTotal, RelTotal, CodeTotal;
    var names := NameCells(segs);
    Tiles(u, segs);
    WroteSegsSizes(u, Empty(segs), segs);
    Uniform(u.z, NameCells(segs[..i]), u.z.name);
    assert names == NameCells(segs[..i]) + [NameCell(segs[i].name)] + names[i + 1..];
    Find(u.z, u.b, Final(u, segs), NameCells(segs[..i]), NameCell(segs[i].name), names[i + 1..]);
  }

  /** The record and the name of segment i are where the header and the record say. */
  lemma SegmentAt(u: Setup, segs: seq<SegVal>, i: nat)
    requires SegsShaped(segs) && Sane(u.z) && u.b == BasesOf(u.z, segs) && i < |segs|
    ensures var cells := Cells(u.z, u.b, Final(u, segs));
            && u.z.hdr + i * u.z.seg in cells && u.b.name + i * u.z.name in cells
            && cells[u.z.hdr + i * u.z.seg] == SegCell(NthRec(u, segs, i))
            && cells[u.b.name + i * u.z.name] == NameCell(segs[i].name)
  {
    hide Cells, Final, BasesOf, TbTotal;
    SegRecordAt(u, segs, i);
    NameCellAt(u, segs, i);
  }

  // ----- the relocation table -----

  function TbsRels(tbs: seq<TbVal>): seq<Rel>
    requires TbsShaped(tbs)
  {
    if tbs == [] then [] else TbsRels(tbs[..|tbs| - 1]) + LiveRels(tbs[|tbs| - 1].block)
  }

  /** All live relocations of the file, block by block. */
  function AllRels(segs: seq<SegVal>): seq<Rel>
    requires SegsShaped(segs)
  {
    if segs == [] then [] else AllRels(segs[..|segs| - 1]) + TbsRels(segs[|segs| - 1].tbs)
  }

  lemma {:induction false} TbsRelsWritten(u: Setup, g: Regions, tbs: seq<TbVal>)
    requires TbsShaped(tbs)
    ensures WroteTbs(u, g, tbs).rels == g.rels + RelCells(TbsRels(tbs))
  {
    hide LiveRels, RelCells, WordCells, Size;
    RelCellsNone();
    if tbs != [] {
      var front, t := tbs[..|tbs| - 1], tbs[|tbs| - 1];
      TbsRelsWritten(u, g, front);
      RelCellsAppend(TbsRels(front), LiveRels(t.block));
    }
  }

  lemma RelCellsNone()
    ensures RelCells([]) == []
  {
  }

  lemma {:induction false} AllRelsWritten(u: Setup, g: Regions, segs: seq<SegVal>)
    requires SegsShaped(segs)
    ensures WroteSegs(u, g, segs).rels == g.rels + RelCells(AllRels(segs))
  {
    hide RelCells, WroteTbs, TbsRels, Size;
    RelCellsNone();
    if segs != [] {
      var front, s := segs[..|segs| - 1], segs[|segs| - 1];
      var h := WroteSegs(u, g, front);
      AllRelsWritten(u, g, front);
      TbsRelsWritten(u, h.(segs := h.segs + [SegCell(SegRecOf(u, h, front, s))]), s.tbs);
      RelCellsAppend(AllRels(front), TbsRels(s.tbs));
    }
  }

  lemma {:induction false} ReadLength(cells: map<nat, Cell>, base: nat, w: nat, n: nat)
    ensures var r := ReadRun(cells, base, w, n); r.Some? ==> |r.value| == n
  {
    if n > 0 { ReadLength(cells, base, w, n - 1); }
  }

  /** The table the reader finds through the header is the live relocations of all blocks, in order, if
      and only if the process had written no relocation before. */
  lemma TableComesBack(u: Setup, segs: seq<SegVal>, junk: Header)
    requires SegsShaped(segs) && Sane(u.z) && u.b == BasesOf(u.z, segs) && segs != []
    ensures var hdr := FinalHeader(u, segs, junk);
            var table := ReadRun(Cells(u.z, u.b, Final(u, segs)), hdr.reltableOffset, u.z.rel, hdr.reltableNum);
            table == Some(RelCells(AllRels(segs))) <==> u.first == 0
  {
    hide Cells, Fits, Size, WroteSegs, RelTotal, AllRels, ReadRun;
    var g, m := Final(u, segs), RelCells(AllRels(segs));
    WroteSegsSizes(u, Empty(segs), segs);
    AllRelsWritten(u, Empty(segs), segs);
    Tiles(u, segs);
    PlacedNone(u.z, 0);
    assert g.rels == [] + m + [] && |m| == RelTotal(segs);
    var hdr := FinalHeader(u, segs, junk);
    ReadLength(Cells(u.z, u.b, g), hdr.reltableOffset, u.z.rel, hdr.reltableNum);
    FindRun(u.z, u.b, g, [], m, [], RelCell(Rel(B_PROLOGUE, 0, 0, 0, 0)));
    RunNone(Cells(u.z, u.b, g), hdr.reltableOffset, u.z.rel);
  }

  lemma RunNone(cells: map<nat, Cell>, base: nat, w: nat)
    ensures ReadRun(cells, base, w, 0) == Some([])
  {
  }

  lemma SliceOfAll(u: Setup, segs: seq<SegVal>, i: nat, j: nat)
    requires SegsShaped(segs) && i < |segs| && j < |segs[i].tbs|
    ensures var n, k := |LiveRels(segs[i].tbs[j].block)|, RelsBefore(segs, i, j);
            k + n <= |AllRels(segs)| && AllRels(segs)[k..k + n] == LiveRels(segs[i].tbs[j].block)
  {
    hide Size, WroteTbs, WroteSegs, RelsBefore, LiveRels, AllRels;
    var t, h := segs[i].tbs[j].block, WroteTbs(u, SegBegun(u, segs, i), segs[i].tbs[..j]);
    StateAt(u, segs, i, j);
    AllRelsWritten(u, Empty(segs), segs);
    var all, k, n := AllRels(segs), RelsBefore(segs, i, j), |LiveRels(t)|;
    var cs := RelCells(all);
    assert h.rels + RelCells(LiveRels(t)) <= [] + cs;
    forall q | 0 <= q < n
      ensures all[k + q] == LiveRels(t)[q]
    {
      assert (h.rels + RelCells(LiveRels(t)))[k + q] == cs[k + q];
    }
  }

  /** Round trip: from the written indices the reader takes exactly the live relocations of the block,
      in order, also when there are none - if and only if some relocation was written by then.
      Otherwise the end index is -1, which the reader counts up to as an unsigned number. */
  lemma RelsComeBack(u: Setup, segs: seq<SegVal>, i: nat, j: nat)
    requires SegsShaped(segs) && Sane(u.z) && i < |segs| && j < |segs[i].tbs| && FileBytes(u.z, segs) < TWO32
    ensures var t, k := segs[i].tbs[j].block, RelsBefore(segs, i, j);
            Slice(AllRels(segs), k, k + |LiveRels(t)| - 1) == Some(LiveRels(t)) <==>
              RelsBefore(segs, i, j) + |LiveRels(t)| > 0
  {
    hide Size, RelsBefore, LiveRels, AllRels, WroteSegs, RelTotal, TbTotal, CodeTotal;
    SliceOfAll(u, segs, i, j);
    WroteSegsSizes(u, Empty(segs), segs);
    AllRelsWritten(u, Empty(segs), segs);
    var n := RelTotal(segs);
    MulGrows(n, u.z.rel);
  }

  lemma MulGrows(n: nat, w: nat)
    requires w >= 1
    ensures n * w >= n
  {
  }

  /** Such a file: one block without relocations.  Its slice is 0 to -1, and reading it runs off the
      table instead of yielding nothing. */
  lemma FirstBlockWithoutRels(u: Setup)
    requires Sane(u.z) && u.first == 0
    ensures var b := Block([], [], [], [], [], [], [INVALID, INVALID], [0, 0]);
            var segs := [SegVal("lib", SegInfo(0, 0, 0, 0), true, [TbVal(TbHead(0, 0, 0, [0, 0], []), b)])];
            RelsBefore(segs, 0, 0) == 0 && LiveRels(b) == [] && AllRels(segs) == []
              && Slice(AllRels(segs), 0, -1) == None
  {
    var b := Block([], [], [], [], [], [], [INVALID, INVALID], [0, 0]);
    var t := TbVal(TbHead(0, 0, 0, [0, 0], []), b);
    var s := SegVal("lib", SegInfo(0, 0, 0, 0), true, [t]);
    assert [s][..0] == [] && [t][..0] == [];
    assert TbsRels([t]) == [] + LiveRels(b);
    assert AllRels([s]) == [] + TbsRels([t]);
  }
}
