/** The push and pop passes on a block: what the visitors leave of it, index and all, and when that is
    the pass function of its slots. */
module StackPasses {
  import opened Isa
  import opened Blocks
  import opened Edits
  import opened SlotViews
  import opened Peephole
  import opened StackRuns

  // ----- what the visitors do -----

  /** `cur_st_insn->data->si = ...` */
  function SetSi(b: Block, p: nat, si: int): (r: Block)
    requires p < |b.code|
    ensures Shaped(b) ==> Shaped(r)
  {
    Overwrite(b, p, b.code[p].(si := si))
  }

  /** The block, the position of the next instruction to look at, and the index kept for it. */
  datatype Here = Here(b: Block, pos: nat, idx: nat)

  /** One round of the loop over a chunk that is not the last: the access gets its offset, and its
      `addi.d` goes unless a live relocation covers the index. */
  ghost function AfterRound(k: Kind, b: Block, p: nat, idx: nat, j: nat): (h: Here)
    requires Shaped(b) && p + 2 <= |b.code|
    ensures Shaped(h.b) && h.pos <= |h.b.code| && |h.b.code| - h.pos == |b.code| - p - 2 && h.idx == idx + 1
  {
    var b1 := SetSi(b, p, k.Offset(j));
    if Covered(b1, idx + 1) then Here(b1, p + 2, idx + 1) else Here(DropInsn(b1, p + 1, idx + 1), p + 1, idx + 1)
  }

  /** The last round: the `addi.d` gets the whole stride. */
  function AfterLast(k: Kind, b: Block, p: nat, idx: nat, c: nat): (h: Here)
    requires Shaped(b) && p + 2 <= |b.code| && c >= 1
    ensures Shaped(h.b) && |h.b.code| == |b.code| && h.pos == p + 2 && h.idx == idx
  {
    Here(SetSi(SetSi(b, p, k.Offset(c - 1)), p + 1, k.Stride(c)), p + 2, idx)
  }

  /** A round in terms of instructions and relocations: the access gets the offset of its place in the chunk;
      the `addi.d` behind it stays if the index, one further now, is under a live relocation, and goes if not. */
  lemma RoundExact(k: Kind, b: Block, p: nat, idx: nat, j: nat)
    requires Shaped(b) && p + 2 <= |b.code|
    ensures var h := AfterRound(k, b, p, idx, j);
            var code := b.code[p := b.code[p].(si := if k.Push? then -8 * (j + 1) else 8 * j)];
            && h.idx == idx + 1
            && if exists q :: 0 <= q < |b.rels| && b.live[q] &&
                              b.rels[q].tcOffset <= 4 * (idx + 1) < b.rels[q].tcOffset + 4 * b.rels[q].slots
               then h.pos == p + 2 && h.b == b.(code := code)
               else h.pos == p + 1 && h.b.code == code[..p + 1] + code[p + 2..] && h.b.live == b.live
  {
    var b1 := SetSi(b, p, k.Offset(j));
    assert b1.rels == b.rels && b1.live == b.live;
  }

  /** The loop over a chunk of c pairs, from pair number j on. */
  ghost function AfterChunk(k: Kind, b: Block, p: nat, idx: nat, j: nat, c: nat): (h: Here)
    requires Shaped(b) && j < c && p + 2 * (c - j) <= |b.code|
    ensures Shaped(h.b) && h.pos <= |h.b.code| && |h.b.code| - h.pos == |b.code| - p - 2 * (c - j)
    decreases c - j
  {
    if j + 1 == c then AfterLast(k, b, p, idx, c)
    else
      var h := AfterRound(k, b, p, idx, j);
      AfterChunk(k, h.b, h.pos, h.idx, j + 1, c)
  }

  /** opt_sequence_of_st_addi / opt_sequence_of_ld_addi on a run of `total` pairs. */
  ghost function AfterSequence(k: Kind, b: Block, p: nat, idx: nat, total: nat): (h: Here)
    requires Shaped(b) && 1 <= total && p + 2 * total <= |b.code|
    ensures Shaped(h.b) && h.pos <= |h.b.code| && |h.b.code| - h.pos == |b.code| - p - 2 * total
    decreases total
  {
    var h := AfterChunk(k, b, p, idx, 0, Min(total, k.Max()));
    if total > k.Max() then AfterSequence(k, h.b, h.pos, h.idx, total - k.Max()) else h
  }

  /** visit from position p on, where the running index is cur. */
  ghost function AfterVisit(k: Kind, b: Block, p: nat, cur: nat): (r: Block)
    requires Shaped(b) && p <= |b.code|
    ensures Shaped(r)
    decreases |b.code| - p
  {
    var s := Slots(b)[p..];
    if s == [] || StopsPass(s[0].insn.opc) then b
    else if PairAt(k, s) then
      var n := RunLength(k, s, s[0].insn.src);
      if n == 1 then AfterVisit(k, b, p + 2, cur + 2)
      else
        var h := AfterSequence(k, b, p, cur, n);
        AfterVisit(k, h.b, h.pos, cur + n + 1)
    else AfterVisit(k, b, p + 1, cur + 1)
  }

  /** One step of it, by cases. */
  lemma VisitEnd(k: Kind, b: Block, p: nat, cur: nat)
    requires Shaped(b) && p <= |b.code|
    ensures p == |b.code| || StopsPass(b.code[p].opc) ==> AfterVisit(k, b, p, cur) == b
  {
  }

  ghost predicate Continues(k: Kind, s: seq<Slot>, q: nat, base: Reg) {
    q < |s| && PairAt(k, s[q..]) && s[q].insn.src == base
  }

  lemma VisitStep(k: Kind, b: Block, p: nat, cur: nat)
    requires Shaped(b) && p < |b.code| && !StopsPass(b.code[p].opc)
    ensures var s := Slots(b);
            if PairAt(k, s[p..]) then
              var n := RunLength(k, s[p..], s[p].insn.src);
              && Continues(k, s, p, s[p].insn.src) && 1 <= n && p + 2 * n <= |b.code|
              && AfterVisit(k, b, p, cur)
                   == (if n == 1 then AfterVisit(k, b, p + 2, cur + 2)
                       else var h := AfterSequence(k, b, p, cur, n); AfterVisit(k, h.b, h.pos, cur + n + 1))
            else AfterVisit(k, b, p, cur) == AfterVisit(k, b, p + 1, cur + 1)
  {
    hide AfterSequence, PairAt, RunLength, Slots;
    var u := Slots(b)[p..];
    assert u[0] == Slots(b)[p];
    if PairAt(k, u) { RunStarts(k, u); }
  }

  lemma RunStarts(k: Kind, s: seq<Slot>)
    requires PairAt(k, s)
    ensures |s| >= 2 && RunLength(k, s, s[0].insn.src) >= 1
  {
  }

  // ----- the slots of one run -----

  /** Slots p.. of s hold `left` pairs of a chunk of c, from pair number j on; carrying the
      chunk through gives `goal`. */
  ghost predicate AtPair(k: Kind, s: seq<Slot>, p: nat, j: nat, c: nat, base: Reg, goal: seq<Slot>) {
    && j <= c && p + 2 * (c - j) <= |s|
    && IsRun(k, s[p..p + 2 * (c - j)], base)
    && goal == s[..p] + Chunk(k, s[p..p + 2 * (c - j)], j, c) + s[p + 2 * (c - j)..]
  }

  lemma PairHere(k: Kind, s: seq<Slot>, p: nat, j: nat, c: nat, base: Reg, goal: seq<Slot>)
    requires AtPair(k, s, p, j, c, base, goal) && j < c
    ensures p + 1 < |s| && s[p].insn.opc == k.Access() && s[p + 1].insn.opc == ADDI_D
  {
    var pairs := s[p..p + 2 * (c - j)];
    assert s[p] == pairs[0] && s[p + 1] == pairs[1];
  }

  /** One round before the last: the access gets its offset and the `addi.d` goes. */
  lemma PairStep(k: Kind, s: seq<Slot>, p: nat, j: nat, c: nat, base: Reg, goal: seq<Slot>)
    requires AtPair(k, s, p, j, c, base, goal) && j + 1 < c
    ensures p + 1 < |s|
    ensures var t := s[p := WithSi(s[p], k.Offset(j))];
            AtPair(k, t[..p + 1] + t[p + 2..], p + 1, j + 1, c, base, goal)
  {
    var left := 2 * (c - j);
    var pairs := s[p..p + left];
    var first := WithSi(s[p], k.Offset(j));
    EraseNext(s, p, left, first);
    assert pairs[0] == s[p] && pairs[2..] == s[p + 2..p + left];
    Assoc(s[..p], [first], Chunk(k, pairs[2..], j + 1, c));
  }

  lemma EraseNext(s: seq<Slot>, p: nat, left: nat, v: Slot)
    requires 2 <= left && p + left <= |s|
    ensures var t := s[p := v];
            var u := t[..p + 1] + t[p + 2..];
            && u[..p + 1] == s[..p] + [v]
            && u[p + 1..p + 1 + left - 2] == s[p + 2..p + left]
            && u[p + 1 + left - 2..] == s[p + left..]
  {
    var t := s[p := v];
    var u := t[..p + 1] + t[p + 2..];
    assert forall q :: p + 1 <= q < |u| ==> u[q] == s[q + 1];
  }

  /** The last round of a chunk: the access gets its offset, the `addi.d` the whole stride. */
  lemma PairLast(k: Kind, s: seq<Slot>, p: nat, j: nat, c: nat, base: Reg, goal: seq<Slot>)
    requires AtPair(k, s, p, j, c, base, goal) && j + 1 == c
    ensures p + 1 < |s| && s[p := WithSi(s[p], k.Offset(j))][p + 1 := WithSi(s[p + 1], k.Stride(c))] == goal
  {
    var pairs := s[p..p + 2];
    assert Chunk(k, pairs, j, c) == [WithSi(s[p], k.Offset(j)), WithSi(s[p + 1], k.Stride(c))];
  }

  /** Rewriting an offset keeps a region editable, and so does then deleting its successor. */
  lemma EditableEdit(s: seq<Slot>, lo: nat, n: nat, p: nat, si: int)
    requires Editable(s, lo, n) && lo <= p < lo + n
    ensures p < |s| && Editable(s[p := WithSi(s[p], si)], lo, n)
    ensures p + 1 < lo + n ==>
              var t := s[p := WithSi(s[p], si)];
              p + 2 <= |s| && Editable(t[..p + 1] + t[p + 2..], lo, n - 1)
  {
    var t := s[p := WithSi(s[p], si)];
    if p + 1 < lo + n {
      var u := t[..p + 1] + t[p + 2..];
      forall q | lo <= q < lo + n - 1
        ensures ClassOf(u[q].insn.opc) == NotBranch && !u[q].pinned
      {
        assert u[q] == t[if q < p + 1 then q else q + 1];
      }
    }
  }

  /** Slots s with the chunk of c pairs at p carried through, or the whole run of n pairs. */
  ghost function Chunked(k: Kind, s: seq<Slot>, p: nat, c: nat): seq<Slot>
    requires p + 2 * c <= |s|
  {
    s[..p] + Chunk(k, s[p..p + 2 * c], 0, c) + s[p + 2 * c..]
  }

  ghost function Coalesced(k: Kind, s: seq<Slot>, p: nat, total: nat): seq<Slot>
    requires p + 2 * total <= |s|
  {
    s[..p] + Coalesce(k, s[p..p + 2 * total]) + s[p + 2 * total..]
  }

  ghost predicate RunAt(k: Kind, s: seq<Slot>, p: nat, total: nat, base: Reg) {
    p + 2 * total <= |s| && IsRun(k, s[p..p + 2 * total], base)
  }

  lemma StartChunk(k: Kind, s: seq<Slot>, p: nat, c: nat, base: Reg)
    requires p + 2 * c <= |s| && RunAt(k, s, p, c, base)
    ensures AtPair(k, s, p, 0, c, base, Chunked(k, s, p, c))
  {
  }

  lemma ChunkSlices(s: seq<Slot>, p: nat, m: nat, e: nat, a: seq<Slot>)
    requires p + m <= e <= |s|
    ensures var t := s[..p] + a + s[p + m..];
            var q := p + |a|;
            && t[..q] == s[..p] + a && t[q..q + (e - p - m)] == s[p + m..e] && t[q + (e - p - m)..] == s[e..]
    ensures s[p..e][..m] == s[p..p + m] && s[p..e][m..] == s[p + m..e]
  {
    var t := s[..p] + a + s[p + m..];
    assert t[p + |a|..] == s[p + m..];
    assert s[p + m..][..e - p - m] == s[p + m..e] && s[p + m..][e - p - m..] == s[e..];
    assert t[p + |a|..][..e - p - m] == t[p + |a|..p + |a| + (e - p - m)];
    assert t[p + |a|..][e - p - m..] == t[p + |a| + (e - p - m)..];
  }

  lemma TwoChunks(k: Kind, s: seq<Slot>, p: nat, c: nat, total: nat)
    requires 1 <= c < total && c == Min(total, k.Max()) && p + 2 * total <= |s|
    requires |Chunk(k, s[p..p + 2 * c], 0, c)| == c + 1
    ensures var t := Chunked(k, s, p, c);
            var q := p + c + 1;
            && q + 2 * (total - c) <= |t|
            && s[p + 2 * c..p + 2 * total] == t[q..q + 2 * (total - c)]
            && Coalesced(k, t, q, total - c) == Coalesced(k, s, p, total)
            && |Coalesce(k, s[p..p + 2 * total])| == c + 1 + |Coalesce(k, t[q..q + 2 * (total - c)])|
  {
    hide Chunk, Coalesce, Min;
    var a, t, q := Chunk(k, s[p..p + 2 * c], 0, c), Chunked(k, s, p, c), p + c + 1;
    var run := s[p..p + 2 * total];
    ChunkSlices(s, p, 2 * c, p + 2 * total, a);
    var z := Coalesce(k, run[2 * c..]);
    CoalesceTwo(k, run, c);
    assert t[q..q + 2 * (total - c)] == run[2 * c..];
    assert Coalesced(k, t, q, total - c) == (s[..p] + a) + z + s[p + 2 * total..];
    Assoc(s[..p], a, z);
  }

  lemma CoalesceTwo(k: Kind, run: seq<Slot>, c: nat)
    requires |run| % 2 == 0 && run != [] && c == Min(|run| / 2, k.Max())
    ensures Coalesce(k, run) == Chunk(k, run[..2 * c], 0, c) + Coalesce(k, run[2 * c..])
  {
  }

  /** How many instructions the run of n pairs at p becomes. */
  ghost function Width(k: Kind, s: seq<Slot>, p: nat, total: nat): nat
    requires p + 2 * total <= |s|
  {
    |Coalesce(k, s[p..p + 2 * total])|
  }

  lemma OneChunk(k: Kind, s: seq<Slot>, p: nat, total: nat)
    requires 1 <= total <= k.Max() && p + 2 * total <= |s|
    requires |Chunk(k, s[p..p + 2 * total], 0, total)| == total + 1
    ensures Coalesced(k, s, p, total) == Chunked(k, s, p, total) && Width(k, s, p, total) == total + 1
    ensures Coalesce(k, s[p..p + 2 * total]) == Chunk(k, s[p..p + 2 * total], 0, total)
  {
    var run := s[p..p + 2 * total];
    assert run[2 * total..] == [] && run[..2 * total] == run;
    assert Coalesce(k, run) == Chunk(k, run, 0, total);
  }

  lemma FirstChunk(k: Kind, s: seq<Slot>, p: nat, c: nat, total: nat, base: Reg)
    requires RunAt(k, s, p, total, base) && 1 <= total && c == Min(total, k.Max())
    ensures 1 <= c <= total && (total > k.Max() ==> c == k.Max() < total) && (total <= k.Max() ==> c == total)
    ensures p + 2 * c <= |s| && RunAt(k, s, p, c, base) && |Chunk(k, s[p..p + 2 * c], 0, c)| == c + 1
  {
    var run := s[p..p + 2 * total];
    IsRunSplit(k, run, base, c);
    assert run[..2 * c] == s[p..p + 2 * c];
    ChunkPlain(k, s[p..p + 2 * c], base, 0, c);
  }

  lemma NextChunk(k: Kind, s: seq<Slot>, t: seq<Slot>, p: nat, c: nat, total: nat, base: Reg)
    requires RunAt(k, s, p, total, base) && 1 <= c == Min(total, k.Max()) && c < total && t == Chunked(k, s, p, c)
    ensures p + c + 1 + 2 * (total - c) <= |t| && RunAt(k, t, p + c + 1, total - c, base)
    ensures Coalesced(k, t, p + c + 1, total - c) == Coalesced(k, s, p, total)
    ensures Width(k, s, p, total) == c + 1 + Width(k, t, p + c + 1, total - c)
  {
    FirstChunk(k, s, p, c, total, base);
    TwoChunks(k, s, p, c, total);
    var run := s[p..p + 2 * total];
    IsRunSplit(k, run, base, c);
    assert run[2 * c..] == s[p + 2 * c..p + 2 * total];
  }

  // ----- one run on a block -----

  /** Inside a region nothing refers to, a round deletes the right instruction, although the index may
      be too small. */
  lemma RoundRight(k: Kind, b: Block, p: nat, idx: nat, j: nat, c: nat, lo: nat, n: nat, base: Reg, goal: seq<Slot>,
                   b0: Block, es: seq<Edit>, last: nat) returns (es': seq<Edit>)
    requires Wf(b) && LeadsInFront(b0, es, b, last) && AtPair(k, Slots(b), p, j, c, base, goal) && j + 1 < c
    requires Editable(Slots(b), lo, n) && lo <= idx <= p && p + 2 * (c - j) <= lo + n <= |b.code| - last
    ensures p + 2 <= |b.code|
    ensures var h := AfterRound(k, b, p, idx, j);
            && Wf(h.b) && LeadsInFront(b0, es', h.b, last) && h.pos == p + 1 && h.idx == idx + 1
            && AtPair(k, Slots(h.b), p + 1, j + 1, c, base, goal) && Editable(Slots(h.b), lo, n - 1)
  {
    hide RelsFit, RelsApart, ExitsAligned, BranchExact, ExitOk, LeadsInFront, AtPair, Editable, Covered, DropInsn, Cut,
         Chunk, IsRun;
    var s := Slots(b);
    PairHere(k, s, p, j, c, base, goal);
    PairStep(k, s, p, j, c, base, goal);
    EditableAt(s, lo, n, p);
    EditableEdit(s, lo, n, p, k.Offset(j));
    var b1 := SetSi(b, p, k.Offset(j));
    SetRight(b, p, k.Offset(j), b0, es, last);
    EraseReady(b0, es + [Set(p, b1.code[p])], b1, idx + 1, p + 1, lo, n, last);
    es' := es + [Set(p, b1.code[p])] + [Del(p + 1)];
  }

  lemma SetRight(b: Block, p: nat, si: int, b0: Block, es: seq<Edit>, last: nat)
    requires Wf(b) && LeadsInFront(b0, es, b, last) && Editable(Slots(b), p, 1) && p + last < |b.code|
    ensures var c := SetSi(b, p, si);
            Wf(c) && LeadsInFront(b0, es + [Set(p, c.code[p])], c, last)
              && Slots(c) == Slots(b)[p := WithSi(Slots(b)[p], si)]
  {
    hide LeadsInFront;
    var v := b.code[p].(si := si);
    FreeOne(b, p);
    ApplyWf(b, Set(p, v));
    SlotsSet(b, p, v);
    InFrontStep(b0, es, b, Set(p, v), last);
  }

  lemma LastRight(k: Kind, b: Block, p: nat, idx: nat, c: nat, lo: nat, n: nat, base: Reg, goal: seq<Slot>,
                  b0: Block, es: seq<Edit>, last: nat) returns (es': seq<Edit>)
    requires Wf(b) && LeadsInFront(b0, es, b, last) && c >= 1 && AtPair(k, Slots(b), p, c - 1, c, base, goal)
    requires Editable(Slots(b), lo, n) && lo <= p && p + 2 <= lo + n <= |b.code| - last
    ensures p + 2 <= |b.code|
    ensures var h := AfterLast(k, b, p, idx, c);
            Wf(h.b) && LeadsInFront(b0, es', h.b, last) && h.pos == p + 2 && h.idx == idx && Slots(h.b) == goal
              && Editable(goal, lo, n)
  {
    hide RelsFit, RelsApart, ExitsAligned, BranchExact, ExitOk, LeadsInFront, AtPair, Editable, Chunk, IsRun;
    var s := Slots(b);
    PairHere(k, s, p, c - 1, c, base, goal);
    PairLast(k, s, p, c - 1, c, base, goal);
    EditableAt(s, lo, n, p);
    EditableEdit(s, lo, n, p, k.Offset(c - 1));
    var b1 := SetSi(b, p, k.Offset(c - 1));
    SetRight(b, p, k.Offset(c - 1), b0, es, last);
    EditableAt(Slots(b1), lo, n, p + 1);
    EditableEdit(Slots(b1), lo, n, p + 1, k.Stride(c));
    SetRight(b1, p + 1, k.Stride(c), b0, es + [Set(p, b1.code[p])], last);
    es' := es + [Set(p, b1.code[p])] + [Set(p + 1, SetSi(b1, p + 1, k.Stride(c)).code[p + 1])];
  }

  lemma {:induction false} ChunkRight(k: Kind, b: Block, p: nat, idx: nat, j: nat, c: nat, lo: nat, n: nat, base: Reg,
                                      goal: seq<Slot>, b0: Block, es: seq<Edit>, last: nat) returns (es': seq<Edit>)
    requires Wf(b) && LeadsInFront(b0, es, b, last) && j < c && AtPair(k, Slots(b), p, j, c, base, goal)
    requires Editable(Slots(b), lo, n) && lo <= idx <= p && p + 2 * (c - j) <= lo + n <= |b.code| - last
    ensures p + 2 * (c - j) <= |b.code|
    ensures var h := AfterChunk(k, b, p, idx, j, c);
            && Wf(h.b) && LeadsInFront(b0, es', h.b, last) && h.pos == p + (c - j) + 1 && h.idx == idx + (c - j - 1)
            && Slots(h.b) == goal && Editable(goal, lo, n - (c - j - 1))
    decreases c - j
  {
    hide RelsFit, RelsApart, ExitsAligned, BranchExact, ExitOk, LeadsInFront, Editable, AfterRound, AfterLast, Chunk,
         IsRun;
    if j + 1 == c {
      es' := LastRight(k, b, p, idx, c, lo, n, base, goal, b0, es, last);
    } else {
      es' := RoundRight(k, b, p, idx, j, c, lo, n, base, goal, b0, es, last);
      var h := AfterRound(k, b, p, idx, j);
      es' := ChunkRight(k, h.b, h.pos, h.idx, j + 1, c, lo, n - 1, base, goal, b0, es', last);
    }
  }

  /** The index handed to the recursive call is two too small per chunk; since it stays inside the run,
      every deletion still comes out right, and the run is coalesced in place. */
  lemma {:induction false} SequenceRight(k: Kind, b: Block, p: nat, idx: nat, total: nat, lo: nat, n: nat, base: Reg,
                                         b0: Block, es: seq<Edit>, last: nat) returns (es': seq<Edit>)
    requires Wf(b) && LeadsInFront(b0, es, b, last) && 1 <= total && RunAt(k, Slots(b), p, total, base)
    requires Editable(Slots(b), lo, n) && lo <= idx <= p && p + 2 * total <= lo + n <= |b.code| - last
    ensures p + 2 * total <= |b.code|
    ensures var h := AfterSequence(k, b, p, idx, total);
            && Wf(h.b) && LeadsInFront(b0, es', h.b, last) && h.pos == p + Width(k, Slots(b), p, total)
            && Slots(h.b) == Coalesced(k, Slots(b), p, total)
    decreases total
  {
    hide RelsFit, RelsApart, ExitsAligned, BranchExact, ExitOk, LeadsInFront, Editable, AfterChunk, Chunk, IsRun,
         Coalesced, Chunked, Width, AtPair;
    var s, c := Slots(b), Min(total, k.Max());
    InCode(k, s, p, total, base);
    FirstChunk(k, s, p, c, total, base);
    StartChunk(k, s, p, c, base);
    es' := ChunkRight(k, b, p, idx, 0, c, lo, n, base, Chunked(k, s, p, c), b0, es, last);
    var h := AfterChunk(k, b, p, idx, 0, c);
    if total > k.Max() {
      NextChunk(k, s, Slots(h.b), p, c, total, base);
      es' := SequenceRight(k, h.b, h.pos, h.idx, total - c, lo, n - (c - 1), base, b0, es', last);
    } else {
      OneChunk(k, s, p, total);
    }
  }

  lemma InCode(k: Kind, s: seq<Slot>, p: nat, total: nat, base: Reg)
    requires RunAt(k, s, p, total, base)
    ensures p + 2 * total <= |s|
  {
  }

  // ----- when the running index can be trusted -----

  lemma ChunksOne(k: Kind, n: nat)
    requires n >= 1
    ensures Chunks(k, n) == 1 <==> n <= k.Max()
  {
    var rest := n - Min(n, k.Max());
    assert Chunks(k, n) == 1 + Chunks(k, rest);
    assert rest > 0 ==> Chunks(k, rest) >= 1;
  }

  /** After a run of n pairs the visitor moves its index on by n + 1, which is the width of what the
      coalesced run leaves exactly if the run is one chunk. */
  lemma AdvanceExact(k: Kind, s: seq<Slot>, p: nat, n: nat, base: Reg)
    requires RunAt(k, s, p, n, base) && n >= 1
    ensures Width(k, s, p, n) == n + 1 <==> n <= if k.Push? then 256 else 255
  {
    CoalesceLength(k, s[p..p + 2 * n], base);
    ChunksOne(k, n);
  }

  /** No run that gets coalesced is under a live relocation or longer than one chunk. */
  predicate Trackable(k: Kind, s: seq<Slot>)
    decreases |s|
  {
    if s == [] || StopsPass(s[0].insn.opc) then true
    else if PairAt(k, s) then
      var n := RunLength(k, s, s[0].insn.src);
      (n == 1 || (Unpinned(s[..2 * n]) && n <= k.Max())) && Trackable(k, s[2 * n..])
    else Trackable(k, s[1..])
  }

  /** What is left to do at position p: the rest of the pass, and its side condition. */
  ghost predicate Remaining(k: Kind, s: seq<Slot>, p: nat, goal: seq<Slot>) {
    p <= |s| && Trackable(k, s[p..]) && goal == s[..p] + Pass(k, s[p..])
  }

  lemma RemainingStart(k: Kind, s: seq<Slot>)
    requires Trackable(k, s)
    ensures Remaining(k, s, 0, Pass(k, s))
  {
    assert s[0..] == s;
    assert s[..0] + Pass(k, s) == Pass(k, s);
  }

  lemma RemainingStop(k: Kind, s: seq<Slot>, p: nat, goal: seq<Slot>)
    requires Remaining(k, s, p, goal) && (p == |s| || StopsPass(s[p].insn.opc))
    ensures goal == s
  {
    SplitAt(s, p);
    assert p < |s| ==> s[p..][0] == s[p];
  }

  lemma RemainingSkip(k: Kind, s: seq<Slot>, p: nat, goal: seq<Slot>)
    requires Remaining(k, s, p, goal) && p < |s| && !StopsPass(s[p].insn.opc) && !PairAt(k, s[p..])
    ensures Remaining(k, s, p + 1, goal)
  {
    var u := s[p..];
    assert u[0] == s[p] && u[1..] == s[p + 1..] && s[..p + 1] == s[..p] + [s[p]];
    assert Pass(k, u) == [u[0]] + Pass(k, u[1..]);
  }

  /** The run at p, if it is longer than one pair, can be edited and is one chunk. */
  lemma RunHere(k: Kind, s: seq<Slot>, p: nat, n: nat, goal: seq<Slot>)
    requires Remaining(k, s, p, goal) && p < |s| && PairAt(k, s[p..]) && n == RunLength(k, s[p..], s[p].insn.src)
    ensures 1 <= n <= k.Max() && p + 2 * n <= |s| && RunAt(k, s, p, n, s[p].insn.src)
    ensures n != 1 ==> Editable(s, p, 2 * n)
  {
    var base := s[p].insn.src;
    var u := s[p..];
    RunPrefixIsRun(k, u, base);
    var run := u[..2 * n];
    assert run == s[p..p + 2 * n] && !StopsPass(u[0].insn.opc) && u[0] == s[p];
    if n != 1 {
      forall q | p <= q < p + 2 * n ensures ClassOf(s[q].insn.opc) == NotBranch && !s[q].pinned {
        IsRunAt(k, run, base, q - p);
        assert run[q - p] == s[q];
      }
    }
  }

  lemma RunWidth(k: Kind, s: seq<Slot>, p: nat, n: nat, base: Reg)
    requires 1 <= n <= k.Max() && p + 2 * n <= |s| && RunAt(k, s, p, n, base)
    ensures Width(k, s, p, n) == |Coalesce(k, s[p..p + 2 * n])| == n + 1
    ensures Coalesced(k, s, p, n) == s[..p] + Coalesce(k, s[p..p + 2 * n]) + s[p + 2 * n..]
    ensures n == 1 ==> Coalesced(k, s, p, n) == s
  {
    var run := s[p..p + 2 * n];
    CoalesceLength(k, run, base);
    assert Chunks(k, n) == 1;
    if n == 1 {
      CoalesceOne(k, run, base);
      SplitAt(s, p);
      SplitAt(s[p..], 2);
      SliceAt(s, p, 2);
      Assoc(s[..p], run, s[p + 2..]);
    }
  }

  lemma PassAtRun(k: Kind, u: seq<Slot>, n: nat)
    requires PairAt(k, u) && n == RunLength(k, u, u[0].insn.src) && Trackable(k, u)
    ensures Pass(k, u) == Coalesce(k, u[..2 * n]) + Pass(k, u[2 * n..]) && Trackable(k, u[2 * n..])
  {
  }

  lemma OpenRemaining(k: Kind, s: seq<Slot>, p: nat, goal: seq<Slot>)
    requires Remaining(k, s, p, goal)
    ensures p <= |s| && Trackable(k, s[p..]) && goal == s[..p] + Pass(k, s[p..])
  {
  }

  lemma CloseRemaining(k: Kind, a: seq<Slot>, z: seq<Slot>, goal: seq<Slot>)
    requires Trackable(k, z) && goal == a + Pass(k, z)
    ensures Remaining(k, a + z, |a|, goal)
  {
    assert (a + z)[..|a|] == a && (a + z)[|a|..] == z;
  }

  lemma RunDone(k: Kind, s: seq<Slot>, p: nat, n: nat, goal: seq<Slot>)
    requires Remaining(k, s, p, goal) && p < |s| && PairAt(k, s[p..]) && n == RunLength(k, s[p..], s[p].insn.src)
    requires p + 2 * n <= |s| && |Coalesce(k, s[p..p + 2 * n])| == n + 1
    ensures Remaining(k, s[..p] + Coalesce(k, s[p..p + 2 * n]) + s[p + 2 * n..], p + n + 1, goal)
  {
    hide *;
    var a, c, rest := s[..p], Coalesce(k, s[p..p + 2 * n]), s[p + 2 * n..];
    OpenRemaining(k, s, p, goal);
    SliceAt(s, p, 2 * n);
    PassAtRun(k, s[p..], n);
    Assoc(a, c, Pass(k, rest));
    CloseRemaining(k, a + c, rest, goal);
  }

  /** The run at p, once coalesced, is behind us. */
  lemma RemainingRun(k: Kind, s: seq<Slot>, p: nat, n: nat, goal: seq<Slot>)
    requires Remaining(k, s, p, goal) && p < |s| && PairAt(k, s[p..]) && n == RunLength(k, s[p..], s[p].insn.src)
    ensures 1 <= n <= k.Max() && p + 2 * n <= |s| && RunAt(k, s, p, n, s[p].insn.src)
    ensures n != 1 ==> Editable(s, p, 2 * n)
    ensures Width(k, s, p, n) == n + 1 && |Coalesced(k, s, p, n)| == |s| - 2 * n + n + 1
    ensures n == 1 ==> Coalesced(k, s, p, n) == s
    ensures Remaining(k, Coalesced(k, s, p, n), p + n + 1, goal)
  {
    hide *;
    RunHere(k, s, p, n, goal);
    RunWidth(k, s, p, n, s[p].insn.src);
    RunDone(k, s, p, n, goal);
  }

  /** On a block all of whose runs can be tracked the visitor leaves the pass function of the slots, and
      it gets there by harmless edits in front of the first branch, so branch lists, relocations
      and exits all follow. */
  lemma VisitTracked(k: Kind, b: Block, last: nat) returns (es: seq<Edit>)
    requires Wf(b) && Trackable(k, Slots(b)) && StopAt(Slots(b), last)
    ensures Shaped(b) && Wf(AfterVisit(k, b, 0, 0)) && LeadsInFront(b, es, AfterVisit(k, b, 0, 0), last)
    ensures Slots(AfterVisit(k, b, 0, 0)) == Pass(k, Slots(b)) && StopAt(Pass(k, Slots(b)), last)
  {
    hide AfterVisit, Remaining, Pass, Trackable, LeadsInFront;
    RemainingStart(k, Slots(b));
    InFrontNone(b, last);
    es := FromHere(k, b, 0, Pass(k, Slots(b)), b, [], last);
  }

  lemma {:induction false} FromHere(k: Kind, b: Block, p: nat, goal: seq<Slot>, b0: Block, es: seq<Edit>, last: nat)
    returns (es': seq<Edit>)
    requires Wf(b) && LeadsInFront(b0, es, b, last) && Remaining(k, Slots(b), p, goal)
    requires StopAt(Slots(b), last) && p + last <= |Slots(b)|
    ensures Shaped(b) && p <= |b.code|
    ensures var d := AfterVisit(k, b, p, p);
            Wf(d) && LeadsInFront(b0, es', d, last) && Slots(d) == goal && StopAt(goal, last)
    decreases |b.code| - p
  {
    hide RelsFit, RelsApart, ExitsAligned, BranchExact, ExitOk, LeadsInFront, Remaining, Editable, AfterVisit,
         AfterSequence, Coalesced, Width, PairAt, RunAt, Continues, RunLength, Slots, Pass, DropInsn, StopAt;
    OpenRemaining(k, Slots(b), p, goal);
    var s := Slots(b);
    es' := es;
    VisitEnd(k, b, p, p);
    if p == |s| || StopsPass(s[p].insn.opc) {
      RemainingStop(k, s, p, goal);
    } else {
      VisitStep(k, b, p, p);
      NotStopped(s, p, last);
      if PairAt(k, s[p..]) {
        var n := RunLength(k, s[p..], s[p].insn.src);
        RemainingRun(k, s, p, n, goal);
        RunInFront(k, s, p, n, s[p].insn.src, last);
        if n == 1 {
          es' := FromHere(k, b, p + 2, goal, b0, es, last);
        } else {
          var h := AfterSequence(k, b, p, p, n);
          es' := SequenceRight(k, b, p, p, n, p, 2 * n, s[p].insn.src, b0, es, last);
          es' := FromHere(k, h.b, h.pos, goal, b0, es', last);
        }
      } else {
        RemainingSkip(k, s, p, goal);
        es' := FromHere(k, b, p + 1, goal, b0, es, last);
      }
    }
  }

  lemma RunInFront(k: Kind, s: seq<Slot>, p: nat, n: nat, base: Reg, last: nat)
    requires RunAt(k, s, p, n, base) && StopAt(s, last) && p + last <= |s|
    ensures p + 2 * n <= |s| && p + 2 * n + last <= |s| && StopAt(Coalesced(k, s, p, n), last)
  {
    hide Coalesce, IsRun, StopAt;
    forall q | p <= q < p + 2 * n
      ensures !StopsPass(s[q].insn.opc)
    {
      IsRunAt(k, s[p..p + 2 * n], base, q - p);
      assert s[p..p + 2 * n][q - p] == s[q];
    }
    StopBehind(s, last, p, 2 * n);
    StopKept(s, last, p, 2 * n, Coalesce(k, s[p..p + 2 * n]));
  }
}
