/** What lib/AOTFileWriter puts into its buffer: typed records at byte offsets, in six regions.
    Record sizes are symbolic; an offset that fits 32 bits is stored exactly. */
module Layouts {
  import opened Isa
  import opened Blocks
  import opened Merge

  /** sizeof the header, a segment record, a TB record and a relocation, and PATH_MAX. */
  datatype Sizes = Sizes(hdr: nat, seg: nat, name: nat, tb: nat, rel: nat)

  predicate Sane(z: Sizes) { z.hdr > 0 && z.seg > 0 && z.name > 0 && z.tb > 0 && z.rel >= 2 }

  datatype Header = Header(segtabOffset: nat, segnum: nat, reltableOffset: nat, reltableNum: nat)

  /** AOT_SegInfo and AOT_Segment */
  datatype SegInfo = SegInfo(file: nat, fileOffset: nat, segBegin: nat, segEnd: nat)
  datatype SegRec = SegRec(info: SegInfo, libNameOffset: nat, tbOffset: nat, tbNums: nat, ismap: bool)

  /** AOT_TB; head stands for the fields that are only copied. */
  datatype TbHead = TbHead(offsetInSegment: nat, size: nat, flags: nat, x86Offset: seq<nat>, segmentIdx: seq<int>)
  datatype TbRec = TbRec(head: TbHead, reset: seq<nat>, target: seq<nat>,
                         cacheOffset: nat, cacheSize: nat, relStart: int, relEnd: int)

  datatype Cell = SegCell(s: SegRec) | NameCell(name: string) | TbCell(t: TbRec) | RelCell(r: Rel) | WordCell(w: nat)

  function Width(z: Sizes, c: Cell): nat {
    match c
    case SegCell(_) => z.seg
    case NameCell(_) => z.name
    case TbCell(_) => z.tb
    case RelCell(_) => z.rel
    case WordCell(_) => 4
  }

  function Size(z: Sizes, cs: seq<Cell>): nat {
    if cs == [] then 0 else Size(z, cs[..|cs| - 1]) + Width(z, cs[|cs| - 1])
  }

  /** The cells one behind the other from offset base on. */
  function Placed(z: Sizes, base: nat, cs: seq<Cell>): map<nat, Cell> {
    if cs == [] then map[]
    else Placed(z, base, cs[..|cs| - 1])[base + Size(z, cs[..|cs| - 1]) := cs[|cs| - 1]]
  }

  // ----- the input -----

  datatype TbVal = TbVal(head: TbHead, block: Block)
  datatype SegVal = SegVal(name: string, info: SegInfo, ismap: bool, tbs: seq<TbVal>)

  predicate TbsShaped(tbs: seq<TbVal>) { forall t :: t in tbs ==> Shaped(t.block) }

  predicate SegsShaped(segs: seq<SegVal>) { forall s :: s in segs ==> TbsShaped(s.tbs) }

  function RelCells(rels: seq<Rel>): seq<Cell> { seq(|rels|, i requires 0 <= i < |rels| => RelCell(rels[i])) }

  function WordCells(code: seq<Insn>, encode: Insn -> nat): seq<Cell> {
    seq(|code|, i requires 0 <= i < |code| => WordCell(encode(code[i])))
  }

  /** TB::how_many_bytes, Segment::how_many_bytes and AOT_File::how_many_bytes */
  function TbBytes(z: Sizes, t: TbVal): nat
    requires Shaped(t.block)
  {
    z.tb + |t.block.code| * 4 + |LiveRels(t.block)| * z.rel
  }

  function TbsBytes(z: Sizes, tbs: seq<TbVal>): nat
    requires TbsShaped(tbs)
  {
    if tbs == [] then 0 else TbsBytes(z, tbs[..|tbs| - 1]) + TbBytes(z, tbs[|tbs| - 1])
  }

  function SegsBytes(z: Sizes, segs: seq<SegVal>): nat
    requires SegsShaped(segs)
  {
    if segs == [] then 0 else SegsBytes(z, segs[..|segs| - 1]) + z.seg + z.name + TbsBytes(z, segs[|segs| - 1].tbs)
  }

  function FileBytes(z: Sizes, segs: seq<SegVal>): nat
    requires SegsShaped(segs)
  {
    z.hdr + SegsBytes(z, segs)
  }

  // ----- the regions -----

  /** The five regions behind the header, and where each begins. */
  datatype Regions = Regions(segs: seq<Cell>, names: seq<Cell>, tbs: seq<Cell>, rels: seq<Cell>, words: seq<Cell>)
  datatype Bases = Bases(seg: nat, name: nat, tb: nat, rel: nat, word: nat)

  function Cells(z: Sizes, b: Bases, g: Regions): map<nat, Cell> {
    Placed(z, b.seg, g.segs) + Placed(z, b.name, g.names) + Placed(z, b.tb, g.tbs)
      + Placed(z, b.rel, g.rels) + Placed(z, b.word, g.words)
  }

  /** No region runs into the next. */
  predicate Fits(z: Sizes, b: Bases, g: Regions) {
    && b.seg + Size(z, g.segs) <= b.name && b.name + Size(z, g.names) <= b.tb
    && b.tb + Size(z, g.tbs) <= b.rel && b.rel + Size(z, g.rels) <= b.word
  }

  lemma {:induction false} SizeAppend(z: Sizes, x: seq<Cell>, y: seq<Cell>)
    ensures Size(z, x + y) == Size(z, x) + Size(z, y)
  {
    if y == [] {
      assert x + y == x;
    } else {
      assert (x + y)[..|x + y| - 1] == x + y[..|y| - 1];
      SizeAppend(z, x, y[..|y| - 1]);
    }
  }

  lemma {:induction false} PlacedKeys(z: Sizes, base: nat, cs: seq<Cell>)
    requires Sane(z)
    ensures forall k :: k in Placed(z, base, cs) ==> base <= k < base + Size(z, cs)
  {
    if cs != [] { PlacedKeys(z, base, cs[..|cs| - 1]); }
  }

  lemma PlacedLast(z: Sizes, base: nat, cs: seq<Cell>, c: Cell)
    ensures Placed(z, base, cs + [c]) == Placed(z, base, cs)[base + Size(z, cs) := c]
    ensures Size(z, cs + [c]) == Size(z, cs) + Width(z, c)
  {
    assert (cs + [c])[..|cs|] == cs;
  }

  lemma PlacedNone(z: Sizes, base: nat)
    ensures Placed(z, base, []) == map[] && Size(z, []) == 0
  {
  }

  lemma {:induction false} PlacedAppend(z: Sizes, base: nat, x: seq<Cell>, y: seq<Cell>)
    ensures Placed(z, base, x + y) == Placed(z, base, x) + Placed(z, base + Size(z, x), y)
  {
    hide Placed, Size;
    if y == [] {
      assert x + y == x;
      PlacedNone(z, base + Size(z, x));
    } else {
      var front, last := y[..|y| - 1], y[|y| - 1];
      PlacedAppend(z, base, x, front);
      PlacedLast(z, base, x + front, last);
      PlacedLast(z, base + Size(z, x), front, last);
      SizeAppend(z, x, front);
      assert x + y == (x + front) + [last] && y == front + [last];
    }
  }

  /** Placing a record between two runs of records. */
  lemma PlacedBetween(z: Sizes, base: nat, x: seq<Cell>, c: Cell, y: seq<Cell>)
    ensures Placed(z, base, x + [c] + y)
         == Placed(z, base, x)[base + Size(z, x) := c] + Placed(z, base + Size(z, x) + Width(z, c), y)
    ensures Size(z, x + [c] + y) == Size(z, x) + Width(z, c) + Size(z, y)
  {
    PlacedAppend(z, base, x + [c], y);
    PlacedLast(z, base, x, c);
    SizeAppend(z, x + [c], y);
  }

  /** Rewriting a record in place. */
  lemma PlacedUpdate(z: Sizes, base: nat, x: seq<Cell>, d: Cell, c: Cell, y: seq<Cell>)
    requires Sane(z) && Width(z, c) == Width(z, d)
    ensures Placed(z, base, x + [d] + y)[base + Size(z, x) := c] == Placed(z, base, x + [c] + y)
    ensures Size(z, x + [c] + y) == Size(z, x + [d] + y)
    ensures base + Size(z, x) in Placed(z, base, x + [d] + y) && Placed(z, base, x + [d] + y)[base + Size(z, x)] == d
  {
    hide Placed, Size;
    PlacedBetween(z, base, x, d, y);
    PlacedBetween(z, base, x, c, y);
    PlacedKeys(z, base + Size(z, x) + Width(z, c), y);
  }

  // ----- writing at the end of a region -----

  lemma RegionKeys(z: Sizes, b: Bases, g: Regions)
    requires Sane(z) && Fits(z, b, g)
    ensures forall k :: k in Placed(z, b.name, g.names) ==> b.name <= k < b.tb
    ensures forall k :: k in Placed(z, b.tb, g.tbs) ==> b.tb <= k < b.rel
    ensures forall k :: k in Placed(z, b.rel, g.rels) ==> b.rel <= k < b.word
    ensures forall k :: k in Placed(z, b.word, g.words) ==> b.word <= k
  {
    hide Placed, Size;
    PlacedKeys(z, b.name, g.names);
    PlacedKeys(z, b.tb, g.tbs);
    PlacedKeys(z, b.rel, g.rels);
    PlacedKeys(z, b.word, g.words);
  }

  /** The regions with one more record at the end of the one it belongs to. */
  function Appended(g: Regions, c: Cell): Regions {
    match c
    case SegCell(_) => g.(segs := g.segs + [c])
    case NameCell(_) => g.(names := g.names + [c])
    case TbCell(_) => g.(tbs := g.tbs + [c])
    case RelCell(_) => g.(rels := g.rels + [c])
    case WordCell(_) => g.(words := g.words + [c])
  }

  /** The cursor of that region. */
  function Cursor(z: Sizes, b: Bases, g: Regions, c: Cell): nat {
    match c
    case SegCell(_) => b.seg + Size(z, g.segs)
    case NameCell(_) => b.name + Size(z, g.names)
    case TbCell(_) => b.tb + Size(z, g.tbs)
    case RelCell(_) => b.rel + Size(z, g.rels)
    case WordCell(_) => b.word + Size(z, g.words)
  }

  lemma Early(a: map<nat, Cell>, p: map<nat, Cell>, k: nat, v: Cell)
    ensures a + p[k := v] == (a + p)[k := v]
  {
  }

  lemma Late(m: map<nat, Cell>, k: nat, v: Cell, c: map<nat, Cell>)
    requires k !in c
    ensures m[k := v] + c == (m + c)[k := v]
  {
  }

  /** An update in one of five merged maps, at a key the later ones do not have. */
  lemma UpdateMerged(s: map<nat, Cell>, n: map<nat, Cell>, t: map<nat, Cell>, r: map<nat, Cell>, w: map<nat, Cell>,
                     k: nat, v: Cell)
    ensures k !in n && k !in t && k !in r && k !in w ==> s[k := v] + n + t + r + w == (s + n + t + r + w)[k := v]
    ensures k !in t && k !in r && k !in w ==> s + n[k := v] + t + r + w == (s + n + t + r + w)[k := v]
    ensures k !in r && k !in w ==> s + n + t[k := v] + r + w == (s + n + t + r + w)[k := v]
    ensures k !in w ==> s + n + t + r[k := v] + w == (s + n + t + r + w)[k := v]
    ensures s + n + t + r + w[k := v] == (s + n + t + r + w)[k := v]
  {
    if k !in n && k !in t && k !in r && k !in w {
      Late(s, k, v, n);
    }
    if k !in t && k !in r && k !in w {
      Early(s, n, k, v);
      Late(s + n, k, v, t);
    }
    if k !in r && k !in w {
      Early(s + n, t, k, v);
      Late(s + n + t, k, v, r);
    }
    if k !in w {
      Early(s + n + t, r, k, v);
      Late(s + n + t + r, k, v, w);
    }
    Early(s + n + t + r, w, k, v);
  }

  lemma PutLast(z: Sizes, b: Bases, g: Regions, c: Cell)
    requires Sane(z) && Fits(z, b, Appended(g, c))
    ensures Cells(z, b, Appended(g, c)) == Cells(z, b, g)[Cursor(z, b, g, c) := c]
    ensures Fits(z, b, g) && Cursor(z, b, Appended(g, c), c) == Cursor(z, b, g, c) + Width(z, c)
  {
    hide Placed, Size, Fits;
    CursorRoom(z, b, g, c);
    CursorFree(z, b, g, c);
    UpdateMerged(Placed(z, b.seg, g.segs), Placed(z, b.name, g.names), Placed(z, b.tb, g.tbs), Placed(z, b.rel, g.rels),
                 Placed(z, b.word, g.words), Cursor(z, b, g, c), c);
    match c {
      case SegCell(_) => PlacedLast(z, b.seg, g.segs, c);
      case NameCell(_) => PlacedLast(z, b.name, g.names, c);
      case TbCell(_) => PlacedLast(z, b.tb, g.tbs, c);
      case RelCell(_) => PlacedLast(z, b.rel, g.rels, c);
      case WordCell(_) => PlacedLast(z, b.word, g.words, c);
    }
  }

  /** No later region has a record at the cursor. */
  lemma CursorFree(z: Sizes, b: Bases, g: Regions, c: Cell)
    requires Sane(z) && Fits(z, b, g) && Fits(z, b, Appended(g, c))
    ensures var k := Cursor(z, b, g, c);
            && (!c.WordCell? ==> k !in Placed(z, b.word, g.words))
            && (!c.WordCell? && !c.RelCell? ==> k !in Placed(z, b.rel, g.rels))
            && (c.SegCell? || c.NameCell? ==> k !in Placed(z, b.tb, g.tbs))
            && (c.SegCell? ==> k !in Placed(z, b.name, g.names))
  {
    hide Placed, Size;
    CursorRoom(z, b, g, c);
    RegionKeys(z, b, g);
  }

  /** The cursor is in front of the next region. */
  lemma CursorRoom(z: Sizes, b: Bases, g: Regions, c: Cell)
    requires Sane(z) && Fits(z, b, Appended(g, c))
    ensures match c
            case SegCell(_) => Cursor(z, b, g, c) < b.name
            case NameCell(_) => Cursor(z, b, g, c) < b.tb
            case TbCell(_) => Cursor(z, b, g, c) < b.rel
            case RelCell(_) => Cursor(z, b, g, c) < b.word
            case WordCell(_) => true
    ensures Fits(z, b, g)
  {
    hide Placed, Size;
    PlacedLast(z, b.seg, g.segs, c);
    PlacedLast(z, b.name, g.names, c);
    PlacedLast(z, b.tb, g.tbs, c);
    PlacedLast(z, b.rel, g.rels, c);
  }

  /** Rewriting the last TB record. */
  lemma RewriteTb(z: Sizes, b: Bases, g: Regions, was: TbRec, now: TbRec)
    requires Sane(z) && Fits(z, b, Appended(g, TbCell(was)))
    ensures Cells(z, b, Appended(g, TbCell(was)))[Cursor(z, b, g, TbCell(was)) := TbCell(now)]
              == Cells(z, b, Appended(g, TbCell(now)))
    ensures Cursor(z, b, g, TbCell(was)) in Cells(z, b, Appended(g, TbCell(was)))
    ensures Cells(z, b, Appended(g, TbCell(was)))[Cursor(z, b, g, TbCell(was))] == TbCell(was)
  {
    hide Placed, Size, Cells;
    PlacedLast(z, b.tb, g.tbs, TbCell(was));
    PlacedLast(z, b.tb, g.tbs, TbCell(now));
    PutLast(z, b, g, TbCell(was));
    PutLast(z, b, g, TbCell(now));
  }

  lemma SegRoom(z: Sizes, b: Bases, g: Regions, x: seq<Cell>, was: SegRec, now: SegRec, y: seq<Cell>)
    requires Sane(z) && Fits(z, b, g.(segs := x + [SegCell(was)] + y))
    ensures Fits(z, b, g.(segs := x + [SegCell(now)] + y)) && b.seg + Size(z, x) < b.name
  {
    hide Placed, Size;
    PlacedBetween(z, b.seg, x, SegCell(was), y);
    PlacedBetween(z, b.seg, x, SegCell(now), y);
  }

  lemma LookupFirst(s: map<nat, Cell>, n: map<nat, Cell>, t: map<nat, Cell>, r: map<nat, Cell>, w: map<nat, Cell>,
                    k: nat)
    requires k in s && k !in n && k !in t && k !in r && k !in w
    ensures k in s + n + t + r + w && (s + n + t + r + w)[k] == s[k]
  {
  }

  /** Rewriting a segment record. */
  lemma RewriteSeg(z: Sizes, b: Bases, g: Regions, x: seq<Cell>, was: SegRec, now: SegRec, y: seq<Cell>)
    requires Sane(z) && Fits(z, b, g.(segs := x + [SegCell(was)] + y))
    ensures Fits(z, b, g.(segs := x + [SegCell(now)] + y))
    ensures Cells(z, b, g.(segs := x + [SegCell(was)] + y))[b.seg + Size(z, x) := SegCell(now)]
         == Cells(z, b, g.(segs := x + [SegCell(now)] + y))
    ensures b.seg + Size(z, x) in Cells(z, b, g.(segs := x + [SegCell(was)] + y))
    ensures Cells(z, b, g.(segs := x + [SegCell(was)] + y))[b.seg + Size(z, x)] == SegCell(was)
  {
    hide Placed, Size, Fits;
    var k := b.seg + Size(z, x);
    var s, n, t, r, w := Placed(z, b.seg, x + [SegCell(was)] + y), Placed(z, b.name, g.names), Placed(z, b.tb, g.tbs),
                         Placed(z, b.rel, g.rels), Placed(z, b.word, g.words);
    SegRoom(z, b, g, x, was, now, y);
    RegionKeysAfter(z, b, g.(segs := x + [SegCell(was)] + y), k);
    PlacedUpdate(z, b.seg, x, SegCell(was), SegCell(now), y);
    UpdateMerged(s, n, t, r, w, k, SegCell(now));
    LookupFirst(s, n, t, r, w, k);
  }

  lemma RegionKeysAfter(z: Sizes, b: Bases, g: Regions, k: nat)
    requires Sane(z) && Fits(z, b, g) && k < b.name
    ensures k !in Placed(z, b.name, g.names) && k !in Placed(z, b.tb, g.tbs)
    ensures k !in Placed(z, b.rel, g.rels) && k !in Placed(z, b.word, g.words)
  {
    hide Placed, Size;
    RegionKeys(z, b, g);
  }
}
