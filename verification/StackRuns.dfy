/** Push and pop coalescing (lib/Vistor/St_Addi_Vistor.cpp and lib/Vistor/Ld_Addi_Vistor.cpp)
    as functions on slots, and what they preserve.

    The two passes have the same shape: a run of pairs, each a memory access through a base
    register followed by an `addi.d` that moves the base by eight bytes, becomes chunks
    of accesses at growing offsets with a single `addi.d` at the end of each chunk. */
module StackRuns {
  import opened Isa

  datatype Kind = Push | Pop {
    function Access(): Opc { if Push? then ST_D else LD_D }
    /** Offset of the access and of the `addi.d` in the pattern. */
    function PairOffset(): int { if Push? then -8 else 0 }
    function Stride(n: nat): int { if Push? then n * -8 else n * 8 }
    /** __MAX_ST_D and __MAX_LD_D */
    function Max(): nat { if Push? then 256 else 255 }
    /** Offset of the access number j of a chunk. */
    function Offset(j: nat): int { if Push? then (j + 1) * -8 else j * 8 }
  }

  /** is_st_addi_pattern and is_ld_addi_pattern */
  predicate PairAt(k: Kind, s: seq<Slot>) {
    && |s| >= 2
    && s[0].insn.opc == k.Access() && s[0].insn.si == k.PairOffset()
    && s[1].insn.opc == ADDI_D && s[1].insn.si == k.Stride(1)
    && s[1].insn.dst == s[0].insn.src && s[1].insn.src == s[0].insn.src
  }

  /** The number of pairs on the given base register at the front. */
  function RunLength(k: Kind, s: seq<Slot>, base: Reg): (n: nat)
    ensures 2 * n <= |s|
  {
    if PairAt(k, s) && s[0].insn.src == base then 1 + RunLength(k, s[2..], base) else 0
  }

  predicate IsRun(k: Kind, s: seq<Slot>, base: Reg)
    decreases |s|
  {
    s == [] || (PairAt(k, s) && s[0].insn.src == base && IsRun(k, s[2..], base))
  }

  function WithSi(sl: Slot, si: int): Slot { sl.(insn := sl.insn.(si := si)) }

  /** The rest of a chunk of c pairs from pair number j on. */
  function Chunk(k: Kind, pairs: seq<Slot>, j: nat, c: nat): seq<Slot>
    requires |pairs| % 2 == 0
    decreases |pairs|
  {
    if pairs == [] then []
    else if |pairs| == 2 then [WithSi(pairs[0], k.Offset(j)), WithSi(pairs[1], k.Stride(c))]
    else [WithSi(pairs[0], k.Offset(j))] + Chunk(k, pairs[2..], j + 1, c)
  }

  function Min(a: nat, b: nat): nat { if a < b then a else b }

  function Coalesce(k: Kind, run: seq<Slot>): seq<Slot>
    requires |run| % 2 == 0
    decreases |run|
  {
    if run == [] then []
    else
      var c := Min(|run| / 2, k.Max());
      Chunk(k, run[..2 * c], 0, c) + Coalesce(k, run[2 * c..])
  }

  function Pass(k: Kind, s: seq<Slot>): seq<Slot>
    decreases |s|
  {
    if s == [] || StopsPass(s[0].insn.opc) then s
    else if PairAt(k, s) then
      var n := RunLength(k, s, s[0].insn.src);
      Coalesce(k, s[..2 * n]) + Pass(k, s[2 * n..])
    else [s[0]] + Pass(k, s[1..])
  }

  // ----- what the pass does, in terms of instructions -----

  /** The chunk bound is the largest run whose total stride still fits the immediate of an `addi.d`. */
  lemma MaxFits(k: Kind, n: nat, r: Reg)
    requires n >= 1
    ensures n <= k.Max() <==> Decoded(Insn(ADDI_D, r, r, if k.Push? then -8 * n else 8 * n, 0, 0, 0))
  {
  }

  /** `st.d v, base, -8; addi.d base, base, -8`, or `ld.d v, base, 0; addi.d base, base, 8` */
  predicate PushOrPop(k: Kind, access: Insn, addi: Insn, base: Reg) {
    && access.opc == (if k.Push? then ST_D else LD_D) && access.si == (if k.Push? then -8 else 0) && access.src == base
    && addi.opc == ADDI_D && addi.si == (if k.Push? then -8 else 8) && addi.dst == base == addi.src
  }

  /** n of them become n accesses at growing offsets and one `addi.d`. */
  function Folded(k: Kind, s: seq<Slot>, n: nat): seq<Slot>
    requires 1 <= n && 2 * n <= |s|
  {
    seq(n, i requires 0 <= i < n => WithSi(s[2 * i], if k.Push? then -8 * (i + 1) else 8 * i))
    + [WithSi(s[2 * n - 1], if k.Push? then -8 * n else 8 * n)]
  }

  lemma FrontPair(k: Kind, s: seq<Slot>, base: Reg)
    ensures PairAt(k, s) && s[0].insn.src == base <==> |s| >= 2 && PushOrPop(k, s[0].insn, s[1].insn, base)
  {
  }

  lemma {:induction false} RunLengthAt(k: Kind, s: seq<Slot>, n: nat, base: Reg)
    requires 2 * n <= |s| && forall i :: 0 <= i < n ==> PushOrPop(k, s[2 * i].insn, s[2 * i + 1].insn, base)
    ensures RunLength(k, s, base) == n + RunLength(k, s[2 * n..], base)
    decreases n
  {
    hide PushOrPop;
    if n == 0 {
      assert s[0..] == s;
    } else {
      assert PushOrPop(k, s[2 * 0].insn, s[2 * 0 + 1].insn, base);
      FrontPair(k, s, base);
      var t := s[2..];
      forall i | 0 <= i < n - 1
        ensures PushOrPop(k, t[2 * i].insn, t[2 * i + 1].insn, base)
      {
        assert t[2 * i] == s[2 * (i + 1)] && t[2 * i + 1] == s[2 * (i + 1) + 1];
      }
      RunLengthAt(k, t, n - 1, base);
      assert t[2 * (n - 1)..] == s[2 * n..];
    }
  }

  lemma PassRun(k: Kind, s: seq<Slot>, base: Reg)
    requires PairAt(k, s) && s[0].insn.src == base
    ensures var m := RunLength(k, s, base);
            m >= 1 && Pass(k, s) == Coalesce(k, s[..2 * m]) + Pass(k, s[2 * m..])
  {
  }

  lemma CoalesceChunk(k: Kind, run: seq<Slot>, c: nat)
    requires |run| % 2 == 0 && run != [] && c == if |run| / 2 < k.Max() then |run| / 2 else k.Max()
    ensures Coalesce(k, run) == Chunk(k, run[..2 * c], 0, c) + Coalesce(k, run[2 * c..])
  {
  }

  lemma {:induction false} ChunkFolds(k: Kind, pairs: seq<Slot>, j: nat, c: nat)
    requires |pairs| % 2 == 0 && |pairs| >= 2
    ensures Chunk(k, pairs, j, c)
         == seq(|pairs| / 2, i requires 0 <= i < |pairs| / 2 => WithSi(pairs[2 * i], k.Offset(j + i)))
            + [WithSi(pairs[|pairs| - 1], k.Stride(c))]
    decreases |pairs|
  {
    var n := |pairs| / 2;
    var folded := seq(n, i requires 0 <= i < n => WithSi(pairs[2 * i], k.Offset(j + i)));
    if |pairs| > 2 {
      var t := pairs[2..];
      ChunkFolds(k, t, j + 1, c);
      var rest := seq(n - 1, i requires 0 <= i < n - 1 => WithSi(t[2 * i], k.Offset(j + 1 + i)));
      assert folded == [WithSi(pairs[0], k.Offset(j))] + rest;
      Assoc([WithSi(pairs[0], k.Offset(j))], rest, [WithSi(pairs[|pairs| - 1], k.Stride(c))]);
    }
  }

  lemma FoldsIs(k: Kind, s: seq<Slot>, n: nat)
    requires 1 <= n && 2 * n <= |s|
    ensures Chunk(k, s[..2 * n], 0, n) == Folded(k, s, n)
  {
    hide Chunk;
    ChunkFolds(k, s[..2 * n], 0, n);
  }

  /** The next pushes or pops on one base register are folded as far as they go, up to 256 pushes or 255
      pops at a time. */
  lemma PassFolds(k: Kind, s: seq<Slot>, n: nat, base: Reg)
    requires 1 <= n <= (if k.Push? then 256 else 255) && 2 * n <= |s|
    requires forall i :: 0 <= i < n ==> PushOrPop(k, s[2 * i].insn, s[2 * i + 1].insn, base)
    requires || n == (if k.Push? then 256 else 255) || |s| < 2 * n + 2
             || !PushOrPop(k, s[2 * n].insn, s[2 * n + 1].insn, base)
    ensures Pass(k, s) == Folded(k, s, n) + Pass(k, s[2 * n..])
  {
    hide Pass, Coalesce, Chunk, PushOrPop, Folded, RunLength, PairAt;
    RunLengthAt(k, s, n, base);
    assert PushOrPop(k, s[2 * 0].insn, s[2 * 0 + 1].insn, base);
    FrontPair(k, s, base);
    FrontPair(k, s[2 * n..], base);
    RunLengthNone(k, s[2 * n..], base);
    PassFront(k, s, n, base);
    FoldsIs(k, s, n);
  }

  lemma PassFront(k: Kind, s: seq<Slot>, n: nat, base: Reg)
    requires PairAt(k, s) && s[0].insn.src == base && 1 <= n && 2 * n <= |s|
    requires RunLength(k, s, base) == n + RunLength(k, s[2 * n..], base)
    requires n == if RunLength(k, s, base) < k.Max() then RunLength(k, s, base) else k.Max()
    ensures Pass(k, s) == Chunk(k, s[..2 * n], 0, n) + Pass(k, s[2 * n..])
  {
    hide *;
    var rest, m := s[2 * n..], RunLength(k, s, base);
    var chunk := Chunk(k, s[..2 * n], 0, n);
    PassRun(k, s, base);
    PairSlices(s, n, m);
    CoalesceChunk(k, s[..2 * m], n);
    var run := RestFolds(k, rest, m - n, base);
    Assoc(chunk, Coalesce(k, run), Pass(k, s[2 * m..]));
  }

  lemma RestFolds(k: Kind, rest: seq<Slot>, m: nat, base: Reg) returns (run: seq<Slot>)
    requires m == RunLength(k, rest, base)
    ensures 2 * m <= |rest| && run == rest[..2 * m] && |run| % 2 == 0
    ensures Coalesce(k, run) + Pass(k, rest[2 * m..]) == Pass(k, rest)
  {
    hide Pass, Coalesce, RunLength, PairAt;
    run := rest[..2 * m];
    RunLengthNone(k, rest, base);
    if m > 0 {
      PassRun(k, rest, base);
    } else {
      NoRun(k);
      assert rest[..0] == [] && rest[0..] == rest;
      assert [] + Pass(k, rest) == Pass(k, rest);
    }
  }

  lemma PairSlices<T>(s: seq<T>, n: nat, m: nat)
    requires n <= m && 2 * m <= |s|
    ensures s[..2 * m][..2 * n] == s[..2 * n] && s[..2 * m][2 * n..] == s[2 * n..][..2 * (m - n)]
    ensures s[2 * n..][2 * (m - n)..] == s[2 * m..]
  {
  }

  lemma RunLengthNone(k: Kind, s: seq<Slot>, base: Reg)
    ensures RunLength(k, s, base) > 0 <==> PairAt(k, s) && s[0].insn.src == base
  {
  }

  lemma NoRun(k: Kind)
    ensures Coalesce(k, []) == []
  {
  }

  /** Everything else is passed over, up to the first B or BNE, where the pass stops. */
  lemma PassElse(k: Kind, s: seq<Slot>)
    requires s != [] && (|s| >= 2 ==> !PushOrPop(k, s[0].insn, s[1].insn, s[0].insn.src))
    ensures Pass(k, s) == if s[0].insn.opc == B || s[0].insn.opc == BNE then s else [s[0]] + Pass(k, s[1..])
  {
    FrontPair(k, s, s[0].insn.src);
  }

  // ----- when coalescing is sound -----

  /** In the rest of a chunk that starts at pair number j, only pair 0 of the chunk accesses
      the base register itself. */
  predicate ChunkSafe(pairs: seq<Slot>, base: Reg, j: nat)
    requires |pairs| % 2 == 0
    decreases |pairs|
  {
    pairs == [] || ((j == 0 || pairs[0].insn.dst != base) && ChunkSafe(pairs[2..], base, j + 1))
  }

  predicate RunSafe(k: Kind, run: seq<Slot>, base: Reg)
    requires |run| % 2 == 0
    decreases |run|
  {
    || run == []
    || var c := Min(|run| / 2, k.Max());
       ChunkSafe(run[..2 * c], base, 0) && RunSafe(k, run[2 * c..], base)
  }

  predicate Unpinned(s: seq<Slot>) { forall i :: 0 <= i < |s| ==> !s[i].pinned }

  /** A run of one pair stays as it is; a longer one needs to be free of live relocations
      and to have a real base register that only the first pair of each chunk accesses. */
  predicate Safe(k: Kind, run: seq<Slot>, base: Reg)
    requires |run| % 2 == 0
  {
    |run| <= 2 || (Unpinned(run) && base != 0 && RunSafe(k, run, base))
  }

  /** Every run the pass meets is safe. */
  predicate PassSafe(k: Kind, s: seq<Slot>)
    decreases |s|
  {
    if s == [] || StopsPass(s[0].insn.opc) then true
    else if PairAt(k, s) then
      var n := RunLength(k, s, s[0].insn.src);
      Safe(k, s[..2 * n], s[0].insn.src) && PassSafe(k, s[2 * n..])
    else PassSafe(k, s[1..])
  }

  // ----- structure -----

  lemma {:induction false} RunPrefixIsRun(k: Kind, s: seq<Slot>, base: Reg)
    ensures IsRun(k, s[..2 * RunLength(k, s, base)], base)
    decreases |s|
  {
    if PairAt(k, s) && s[0].insn.src == base {
      RunPrefixIsRun(k, s[2..], base);
      var n := RunLength(k, s, base);
      assert s[..2 * n][2..] == s[2..][..2 * n - 2];
    }
  }

  lemma {:induction false} IsRunSplit(k: Kind, s: seq<Slot>, base: Reg, n: nat)
    requires IsRun(k, s, base) && 2 * n <= |s|
    ensures |s| % 2 == 0 && IsRun(k, s[..2 * n], base) && IsRun(k, s[2 * n..], base)
    decreases |s|
  {
    if s != [] { assert |s| >= 2; }
    hide PairAt;
    if s == [] || n == 0 {
      assert s[0..] == s;
      if s != [] { IsRunSplit(k, s[2..], base, 0); }
    } else {
      IsRunSplit(k, s[2..], base, n - 1);
      PairFront(k, s, s[..2 * n]);
      assert s[..2 * n][2..] == s[2..][..2 * (n - 1)] && s[2..][2 * (n - 1)..] == s[2 * n..];
    }
  }

  lemma PairFront(k: Kind, s: seq<Slot>, t: seq<Slot>)
    requires |s| >= 2 && |t| >= 2 && s[0] == t[0] && s[1] == t[1]
    ensures PairAt(k, s) == PairAt(k, t)
  {
  }

  lemma {:induction false} IsRunAt(k: Kind, s: seq<Slot>, base: Reg, q: nat)
    requires IsRun(k, s, base) && q < |s|
    ensures ClassOf(s[q].insn.opc) == NotBranch && !StopsPass(s[q].insn.opc)
    decreases |s|
  {
    if q >= 2 { IsRunAt(k, s[2..], base, q - 2); }
  }

  // ----- meaning -----

  /** The states before pair number j of a chunk: s runs the original code, t the chunk,
      whose base register still has the value from the start. */
  ghost predicate Lags<M>(k: Kind, s: State<M>, t: State<M>, base: Reg, j: nat) {
    && s.mem == t.mem
    && (forall r: Reg :: r != base ==> s.regs[r] == t.regs[r])
    && s.regs[base] == Wrap(t.regs[base] + k.Stride(j))
  }

  ghost function RunPair<M>(m: Machine<M>, pair: seq<Slot>, s: State<M>): State<M>
    requires |pair| >= 2
  {
    ExecSlot(m, pair[1], ExecSlot(m, pair[0], s))
  }

  lemma SameAddress<M>(k: Kind, s: State<M>, t: State<M>, base: Reg, j: nat)
    requires Lags(k, s, t, base, j)
    ensures Wrap(s.regs[base] + k.PairOffset()) == Wrap(t.regs[base] + k.Offset(j))
    ensures Wrap(s.regs[base] + k.Stride(1)) == Wrap(t.regs[base] + k.Stride(j + 1))
  {
    var b := t.regs[base];
    WrapAdd(b + k.Stride(j), k.PairOffset());
    WrapAdd(b + k.Stride(j), k.Stride(1));
    assert b + k.Stride(j) + k.PairOffset() == b + k.Offset(j);
    assert b + k.Stride(j) + k.Stride(1) == b + k.Stride(j + 1);
  }

  /** The access of the pair, at the folded offset on the side that lags. */
  lemma AccessLags<M>(m: Machine<M>, k: Kind, x: Slot, s: State<M>, t: State<M>, base: Reg, j: nat)
    requires x.insn.opc == k.Access() && x.insn.si == k.PairOffset() && x.insn.src == base && base != 0 && !x.pinned
    requires Lags(k, s, t, base, j) && (j == 0 || x.insn.dst != base)
    ensures var a, t' := ExecSlot(m, x, s), ExecSlot(m, WithSi(x, k.Offset(j)), t);
            && a.mem == t'.mem && (forall r: Reg :: r != base ==> a.regs[r] == t'.regs[r])
            && (k.Push? || x.insn.dst != base ==> a.regs[base] == s.regs[base] && t'.regs[base] == t.regs[base])
            && (j == 0 ==> a.regs[base] == t'.regs[base])
  {
    hide Wrap;
    SameAddress(k, s, t, base, j);
    if j == 0 {
      Unlagged(k, s, t, base);
    }
  }

  lemma Unlagged<M>(k: Kind, s: State<M>, t: State<M>, base: Reg)
    requires Lags(k, s, t, base, 0)
    ensures s.regs == t.regs
  {
    assert s.regs[base] == t.regs[base];
  }

  lemma PairLags<M>(m: Machine<M>, k: Kind, pair: seq<Slot>, s: State<M>, t: State<M>, base: Reg, j: nat)
    requires PairAt(k, pair) && pair[0].insn.src == base && base != 0 && Unpinned(pair)
    requires Lags(k, s, t, base, j) && (j == 0 || pair[0].insn.dst != base)
    ensures Lags(k, RunPair(m, pair, s), ExecSlot(m, WithSi(pair[0], k.Offset(j)), t), base, j + 1)
  {
    SameAddress(k, s, t, base, j);
    AccessLags(m, k, pair[0], s, t, base, j);
  }

  lemma ChunkTail(k: Kind, pairs: seq<Slot>, z: seq<Slot>, j: nat, c: nat)
    requires |pairs| >= 2 && |pairs| % 2 == 0
    ensures var b := Chunk(k, pairs, j, c) + z;
            && b != [] && b[0] == WithSi(pairs[0], k.Offset(j))
            && (|pairs| == 2 ==> b[1..] == [WithSi(pairs[1], k.Stride(c))] + z)
            && (|pairs| > 2 ==>
                  |b| > 1 && b[1..] == Chunk(k, pairs[2..], j + 1, c) + z && b[1] == WithSi(pairs[2], k.Offset(j + 1)))
  {
  }

  lemma DropPair<M>(m: Machine<M>, pairs: seq<Slot>, z: seq<Slot>, s: State<M>)
    requires |pairs| >= 2
    ensures ExecAll(m, pairs + z, s) == ExecAll(m, pairs[2..] + z, RunPair(m, pairs, s))
  {
    var a := pairs + z;
    assert a[1..][1..] == pairs[2..] + z && a[0] == pairs[0] && a[1..][0] == pairs[1];
  }

  /** The `addi.d` that ends a chunk catches the base register up. */
  lemma LastCatchesUp<M>(m: Machine<M>, k: Kind, addi: Slot, base: Reg, c: nat, s: State<M>, t: State<M>)
    requires !addi.pinned && addi.insn.opc == ADDI_D && addi.insn.dst == base == addi.insn.src && base != 0
    requires Lags(k, s, t, base, c)
    ensures ExecSlot(m, WithSi(addi, k.Stride(c)), t) == s
  {
    assert ExecSlot(m, WithSi(addi, k.Stride(c)), t).regs == s.regs;
  }

  /** The first pair of a chunk, and what is left of it. */
  lemma ChunkParts(k: Kind, pairs: seq<Slot>, base: Reg, j: nat)
    requires |pairs| >= 2 && |pairs| % 2 == 0 && IsRun(k, pairs, base) && Unpinned(pairs) && ChunkSafe(pairs, base, j)
    ensures PairAt(k, pairs) && pairs[0].insn.src == base && (j == 0 || pairs[0].insn.dst != base)
    ensures !pairs[1].pinned && pairs[1].insn.opc == ADDI_D && pairs[1].insn.dst == base == pairs[1].insn.src
    ensures var rest := pairs[2..];
            rest != [] ==>
              |rest| >= 2 && |rest| % 2 == 0 && IsRun(k, rest, base) && Unpinned(rest) && ChunkSafe(rest, base, j + 1)
  {
  }

  lemma {:induction false} ChunkMeaning<M>(m: Machine<M>, k: Kind, pairs: seq<Slot>, base: Reg, j: nat, c: nat,
                                           s: State<M>, t: State<M>)
    requires |pairs| >= 2 && |pairs| % 2 == 0 && c == j + |pairs| / 2
    requires IsRun(k, pairs, base) && Unpinned(pairs) && base != 0 && ChunkSafe(pairs, base, j)
    requires Lags(k, s, t, base, j)
    ensures ExecAll(m, Chunk(k, pairs, j, c), t) == ExecAll(m, pairs, s)
    decreases |pairs|
  {
    hide IsRun, PairAt, Unpinned, ChunkSafe, Lags, RunPair, WithSi, ExecSlot, Chunk;
    var rest := pairs[2..];
    var t' := ExecSlot(m, WithSi(pairs[0], k.Offset(j)), t);
    var s' := RunPair(m, pairs, s);
    ChunkParts(k, pairs, base, j);
    PairLags(m, k, pairs, s, t, base, j);
    DropPair(m, pairs, [], s);
    ChunkTail(k, pairs, [], j, c);
    assert pairs + [] == pairs && rest + [] == rest && Chunk(k, pairs, j, c) + [] == Chunk(k, pairs, j, c);
    if rest == [] {
      var last := WithSi(pairs[1], k.Stride(c));
      LastCatchesUp(m, k, pairs[1], base, c, s', t');
      assert [last] + [] == [last] && [last][1..] == [];
    } else {
      assert Chunk(k, rest, j + 1, c) + [] == Chunk(k, rest, j + 1, c);
      ChunkMeaning(m, k, rest, base, j + 1, c, s', t');
    }
  }

  lemma {:induction false} CoalesceMeaning<M>(m: Machine<M>, k: Kind, run: seq<Slot>, base: Reg, s: State<M>)
    requires |run| % 2 == 0 && IsRun(k, run, base) && Unpinned(run) && base != 0 && RunSafe(k, run, base)
    ensures ExecAll(m, Coalesce(k, run), s) == ExecAll(m, run, s)
    decreases |run|
  {
    hide ExecAll, ExecSlot, Chunk, IsRun, ChunkSafe;
    if run != [] {
      var c := Min(|run| / 2, k.Max());
      var a, z := run[..2 * c], run[2 * c..];
      IsRunSplit(k, run, base, c);
      WrapSelf(s.regs[base]);
      ChunkMeaning(m, k, a, base, 0, c, s, s);
      CoalesceMeaning(m, k, z, base, ExecAll(m, a, s));
      ExecAllAppend(m, Chunk(k, a, 0, c), Coalesce(k, z), s);
      ExecAllAppend(m, a, z, s);
      SplitAt(run, 2 * c);
    }
  }

  lemma WrapSelf(w: Word)
    ensures Wrap(w) == w
  {
  }

  lemma CoalesceOne(k: Kind, run: seq<Slot>, base: Reg)
    requires |run| == 2 && IsRun(k, run, base)
    ensures Coalesce(k, run) == run
  {
    assert run[..2] == run && run[2..] == [];
    assert Chunk(k, run, 0, 1) == run;
  }

  /** Coalescing a safe run leaves the same registers and makes the same memory accesses,
      with the same addresses and values in the same order, on every machine. */
  lemma RunMeaning<M>(m: Machine<M>, k: Kind, run: seq<Slot>, base: Reg, s: State<M>)
    requires |run| % 2 == 0 && IsRun(k, run, base) && Safe(k, run, base)
    ensures ExecAll(m, Coalesce(k, run), s) == ExecAll(m, run, s)
  {
    if |run| == 2 {
      CoalesceOne(k, run, base);
    } else if |run| > 2 {
      CoalesceMeaning(m, k, run, base, s);
    }
  }

  /** What the pass may leave at the place of a run. */
  predicate PlainInsn(k: Kind, i: Insn) {
    && ClassOf(i.opc) == NotBranch && Decoded(i)
    && (k.Push? ==> -2048 <= i.si <= -8)
    && (k.Pop? ==> 0 <= i.si <= (if i.opc == LD_D then 2032 else 2040))
  }

  lemma {:induction false} ChunkPlain(k: Kind, pairs: seq<Slot>, base: Reg, j: nat, c: nat)
    requires |pairs| % 2 == 0 && IsRun(k, pairs, base) && c == j + |pairs| / 2 && c <= k.Max()
    ensures |Chunk(k, pairs, j, c)| == if pairs == [] then 0 else |pairs| / 2 + 1
    ensures forall q :: 0 <= q < |Chunk(k, pairs, j, c)| ==> PlainInsn(k, Chunk(k, pairs, j, c)[q].insn)
    ensures Unpinned(pairs) ==> Unpinned(Chunk(k, pairs, j, c))
    decreases |pairs|
  {
    if |pairs| > 2 { ChunkPlain(k, pairs[2..], base, j + 1, c); }
  }

  /** Every immediate the pass writes fits the twelve-bit signed field: stores and their
      final `addi.d` stay in [-2048, -8], loads in [0, 2032] with a final one up to 2040. */
  lemma {:induction false} CoalescePlain(k: Kind, run: seq<Slot>, base: Reg)
    requires |run| % 2 == 0 && IsRun(k, run, base)
    ensures forall q :: 0 <= q < |Coalesce(k, run)| ==> PlainInsn(k, Coalesce(k, run)[q].insn)
    ensures Unpinned(run) ==> Unpinned(Coalesce(k, run))
    decreases |run|
  {
    hide IsRun, Chunk, PlainInsn;
    if run != [] {
      var c := Min(|run| / 2, k.Max());
      IsRunSplit(k, run, base, c);
      ChunkPlain(k, run[..2 * c], base, 0, c);
      CoalescePlain(k, run[2 * c..], base);
    }
  }

  function Chunks(k: Kind, n: nat): nat
    decreases n
  {
    if n == 0 then 0 else 1 + Chunks(k, n - Min(n, k.Max()))
  }

  /** A run of n pairs keeps its accesses and one `addi.d` per chunk. */
  lemma {:induction false} CoalesceLength(k: Kind, run: seq<Slot>, base: Reg)
    requires |run| % 2 == 0 && IsRun(k, run, base)
    ensures |Coalesce(k, run)| == |run| / 2 + Chunks(k, |run| / 2)
    decreases |run|
  {
    hide IsRun, Chunk, PlainInsn;
    if run != [] {
      var c := Min(|run| / 2, k.Max());
      IsRunSplit(k, run, base, c);
      ChunkPlain(k, run[..2 * c], base, 0, c);
      CoalesceLength(k, run[2 * c..], base);
    }
  }

  lemma RunStraight(k: Kind, run: seq<Slot>, base: Reg)
    requires |run| % 2 == 0 && IsRun(k, run, base)
    ensures Straight(run) && Straight(Coalesce(k, run))
  {
    forall q | 0 <= q < |run| ensures !StopsPass(run[q].insn.opc) { IsRunAt(k, run, base, q); }
    CoalescePlain(k, run, base);
  }

  lemma RunInFront<M>(m: Machine<M>, k: Kind, run: seq<Slot>, base: Reg, rest: seq<Slot>, rest': seq<Slot>,
                      st: State<M>)
    requires |run| % 2 == 0 && IsRun(k, run, base) && Safe(k, run, base)
    requires RunPrefix(m, rest', ExecAll(m, run, st)) == RunPrefix(m, rest, ExecAll(m, run, st))
    ensures RunPrefix(m, Coalesce(k, run) + rest', st) == RunPrefix(m, run + rest, st)
  {
    RunStraight(k, run, base);
    RunMeaning(m, k, run, base, st);
    RunPrefixAppend(m, Coalesce(k, run), rest', st);
    RunPrefixAppend(m, run, rest, st);
  }

  /** The whole pass preserves the state in which the first B or BNE is reached, and the
      code from there on, on every machine and from every state. */
  lemma {:induction false} PassMeaning<M>(m: Machine<M>, k: Kind, s: seq<Slot>, st: State<M>)
    requires PassSafe(k, s)
    ensures RunPrefix(m, Pass(k, s), st) == RunPrefix(m, s, st)
    decreases |s|
  {
    hide Coalesce, ExecAll, RunPrefix, RunLength, PairAt, IsRun;
    if s == [] || StopsPass(s[0].insn.opc) {
    } else if PairAt(k, s) {
      var base := s[0].insn.src;
      var n := RunLength(k, s, base);
      var run, rest := s[..2 * n], s[2 * n..];
      RunLengthNone(k, s, base);
      RunPrefixIsRun(k, s, base);
      PassMeaning(m, k, rest, ExecAll(m, run, st));
      RunInFront(m, k, run, base, rest, Pass(k, rest), st);
      SplitAt(s, 2 * n);
    } else {
      PassMeaning(m, k, s[1..], ExecSlot(m, s[0], st));
      OneInFront(m, s[0], s[1..], Pass(k, s[1..]), st);
      SplitAt(s, 1);
      assert s[..1] == [s[0]];
    }
  }

  lemma OneInFront<M>(m: Machine<M>, x: Slot, t: seq<Slot>, u: seq<Slot>, st: State<M>)
    requires !StopsPass(x.insn.opc) && RunPrefix(m, t, ExecSlot(m, x, st)) == RunPrefix(m, u, ExecSlot(m, x, st))
    ensures RunPrefix(m, [x] + t, st) == RunPrefix(m, [x] + u, st)
  {
    ConsTail(x, t);
    ConsTail(x, u);
  }

  // ----- exactness: where coalescing is not safe it goes wrong -----

  datatype Access = Read(addr: Word) | Write(addr: Word, value: Word)

  /** The machine whose memory is the list of accesses made so far. */
  function LogMachine(): Machine<seq<Access>> {
    Machine((log: seq<Access>, a: Word) => (0, log + [Read(a)]),
            (log: seq<Access>, a: Word, v: Word) => log + [Write(a, v)],
            (i: Insn, s: State<seq<Access>>) => s,
            (i: Insn, s: State<seq<Access>>) => (By(0), s),
            (i: Insn, s: State<seq<Access>>) => (0, s))
  }

  type LogState = State<seq<Access>>

  ghost predicate Diverged(s: LogState, t: LogState) {
    exists i :: 0 <= i < |s.mem| && i < |t.mem| && s.mem[i] != t.mem[i]
  }

  lemma {:induction false} LogGrows(code: seq<Slot>, s: LogState)
    ensures s.mem <= ExecAll(LogMachine(), code, s).mem
    decreases |code|
  {
    if code != [] { LogGrows(code[1..], ExecSlot(LogMachine(), code[0], s)); }
  }

  lemma StayDiverged(a: seq<Slot>, b: seq<Slot>, s: LogState, t: LogState)
    requires Diverged(s, t)
    ensures ExecAll(LogMachine(), a, s) != ExecAll(LogMachine(), b, t)
  {
    LogGrows(a, s);
    LogGrows(b, t);
  }

  lemma WrapInjective(w: Word, v: Word, d: int)
    requires w != v
    ensures Wrap(w + d) != Wrap(v + d)
  {
  }

  function Acc(k: Kind, a: Word, v: Word): Access { if k.Push? then Write(a, v) else Read(a) }

  lemma AccessLogged(k: Kind, sl: Slot, s: LogState)
    requires !sl.pinned && sl.insn.opc == k.Access()
    ensures ExecSlot(LogMachine(), sl, s).mem
         == s.mem + [Acc(k, AddressOf(sl, s), s.regs[sl.insn.dst])]
  {
  }

  lemma FirstAccessDiffers(a: seq<Slot>, b: seq<Slot>, s: LogState, t: LogState, x: Access, y: Access)
    requires a != [] && b != [] && s.mem == t.mem && x != y
    requires ExecSlot(LogMachine(), a[0], s).mem == s.mem + [x]
    requires ExecSlot(LogMachine(), b[0], t).mem == t.mem + [y]
    ensures ExecAll(LogMachine(), a, s) != ExecAll(LogMachine(), b, t)
  {
    var s', t' := ExecSlot(LogMachine(), a[0], s), ExecSlot(LogMachine(), b[0], t);
    assert s'.mem[|s.mem|] == x && t'.mem[|s.mem|] == y;
    StayDiverged(a[1..], b[1..], s', t');
  }

  /** The address and the stored value of the access at the front. */
  function AddressOf(sl: Slot, s: LogState): Word { Wrap(s.regs[sl.insn.src] + sl.insn.si) }

  /** Two accesses after equal histories that differ in address or value. */
  lemma AccessDiffers(k: Kind, a: seq<Slot>, b: seq<Slot>, s: LogState, t: LogState)
    requires a != [] && b != [] && s.mem == t.mem && !a[0].pinned && !b[0].pinned
    requires a[0].insn.opc == k.Access() == b[0].insn.opc
    requires AddressOf(a[0], s) != AddressOf(b[0], t) || (k.Push? && s.regs[a[0].insn.dst] != t.regs[b[0].insn.dst])
    ensures ExecAll(LogMachine(), a, s) != ExecAll(LogMachine(), b, t)
  {
    AccessLogged(k, a[0], s);
    AccessLogged(k, b[0], t);
    FirstAccessDiffers(a, b, s, t, Acc(k, AddressOf(a[0], s), s.regs[a[0].insn.dst]),
                       Acc(k, AddressOf(b[0], t), t.regs[b[0].insn.dst]));
  }

  lemma CoalesceFront(k: Kind, run: seq<Slot>, base: Reg)
    requires |run| % 2 == 0 && run != [] && IsRun(k, run, base)
    ensures |Coalesce(k, run)| >= 2 && Coalesce(k, run)[0] == WithSi(run[0], k.PairOffset())
    ensures |run| > 2 ==> PairAt(k, run[2..]) && Coalesce(k, run)[1] == WithSi(run[2], k.Offset(1))
  {
    var c := Min(|run| / 2, k.Max());
    var a := run[..2 * c];
    ChunkTail(k, a, Coalesce(k, run[2 * c..]), 0, c);
    if |run| > 2 { assert a[2] == run[2]; }
  }

  /** A run and what it is coalesced to begin with the same access. */
  lemma RunFront(k: Kind, z: seq<Slot>, base: Reg)
    requires |z| % 2 == 0 && z != [] && IsRun(k, z, base) && Unpinned(z)
    ensures !z[0].pinned && z[0].insn.opc == k.Access() && z[0].insn.src == base
    ensures Coalesce(k, z) != [] && Coalesce(k, z)[0] == z[0]
  {
    hide Coalesce;
    CoalesceFront(k, z, base);
  }

  lemma AddressesDiffer(sl: Slot, s: LogState, t: LogState)
    requires s.regs[sl.insn.src] != t.regs[sl.insn.src]
    ensures AddressOf(sl, s) != AddressOf(sl, t)
  {
    WrapInjective(s.regs[sl.insn.src], t.regs[sl.insn.src], sl.insn.si);
  }

  lemma NothingRun(k: Kind, s: LogState)
    ensures Coalesce(k, []) == [] && ExecAll(LogMachine(), [], s) == s
  {
  }

  /** After a chunk that got the base register wrong, nothing later repairs it. */
  lemma BaseStaysWrong(k: Kind, z: seq<Slot>, base: Reg, s: LogState, t: LogState)
    requires |z| % 2 == 0 && IsRun(k, z, base) && Unpinned(z)
    requires s.mem == t.mem && s.regs[base] != t.regs[base]
    ensures ExecAll(LogMachine(), z, s) != ExecAll(LogMachine(), Coalesce(k, z), t)
  {
    hide *;
    if z == [] {
      NothingRun(k, s);
      NothingRun(k, t);
    } else {
      RunFront(k, z, base);
      AddressesDiffer(z[0], s, t);
      AccessDiffers(k, z, Coalesce(k, z), s, t);
    }
  }

  lemma WrapOff(w: Word, n: nat)
    requires 0 < n < 4096
    ensures Wrap(w - n) != w
  {
  }

  /** A pair that accesses the base register anywhere but first in its chunk is caught:
      a push stores another value there. */
  lemma UnsafePush(a: seq<Slot>, b: seq<Slot>, base: Reg, j: nat, s: LogState, t: LogState)
    requires a != [] && b != [] && !a[0].pinned && !b[0].pinned && 0 < j < 256
    requires a[0].insn.opc == ST_D && a[0].insn.si == -8 && a[0].insn.src == base == a[0].insn.dst
    requires b[0] == WithSi(a[0], Push.Offset(j)) && Lags(Push, s, t, base, j)
    ensures ExecAll(LogMachine(), a, s) != ExecAll(LogMachine(), b, t)
  {
    WrapOff(t.regs[base], 8 * j);
    AccessDiffers(Push, a, b, s, t);
  }

  lemma AddToZero(sl: Slot, d: nat, base: Reg, s: LogState)
    requires !sl.pinned && sl.insn.opc == ADDI_D && sl.insn.si == d && sl.insn.dst == sl.insn.src == base != 0
    requires s.regs[base] == 0 && d < 4096
    ensures var s' := ExecSlot(LogMachine(), sl, s); s'.regs[base] == d && s'.mem == s.mem
  {
  }

  lemma SmallAddress(sl: Slot, s: LogState, d: nat)
    requires s.regs[sl.insn.src] + sl.insn.si == d < 4096
    ensures AddressOf(sl, s) == d
  {
  }

  lemma PopAccess()
    ensures Pop.Access() == LD_D
  {
  }

  /** A pop that overwrites the base: both sides have loaded 0 into it, then one adds 8 and
      the other waits, so the next access of the chunk differs, ... */
  lemma UnsafePopNext(a: seq<Slot>, b: seq<Slot>, base: Reg, d: nat, s: LogState, t: LogState)
    requires |a| >= 2 && b != [] && s.mem == t.mem && s.regs[base] == 0 == t.regs[base] && base != 0 && 8 < d < 4096
    requires !a[0].pinned && a[0].insn.opc == ADDI_D && a[0].insn.si == 8 && a[0].insn.dst == base == a[0].insn.src
    requires !a[1].pinned && a[1].insn.opc == LD_D && a[1].insn.si == 0 && a[1].insn.src == base
    requires !b[0].pinned && b[0].insn.opc == LD_D && b[0].insn.si == d && b[0].insn.src == base
    ensures ExecAll(LogMachine(), a, s) != ExecAll(LogMachine(), b, t)
  {
    hide *;
    var s' := ExecSlot(LogMachine(), a[0], s);
    AddToZero(a[0], 8, base, s);
    ExecFirst(LogMachine(), a, s);
    SmallAddress(a[1], s', 8);
    SmallAddress(b[0], t, d);
    PopAccess();
    AccessDiffers(Pop, a[1..], b, s', t);
  }

  /** ... or, at the end of the chunk, the base itself. */
  lemma UnsafePopLast(addi: Slot, z: seq<Slot>, base: Reg, c: nat, s: LogState, t: LogState)
    requires !addi.pinned && addi.insn.opc == ADDI_D && addi.insn.si == 8 && addi.insn.dst == base == addi.insn.src
    requires 2 <= c <= 255 && s.mem == t.mem && s.regs[base] == 0 == t.regs[base] && base != 0
    requires |z| % 2 == 0 && IsRun(Pop, z, base) && Unpinned(z)
    ensures ExecAll(LogMachine(), [addi] + z, s) != ExecAll(LogMachine(), [WithSi(addi, 8 * c)] + Coalesce(Pop, z), t)
  {
    hide LogMachine, ExecSlot, Coalesce, IsRun;
    var L := LogMachine();
    var last := WithSi(addi, 8 * c);
    AddToZero(addi, 8, base, s);
    AddToZero(last, 8 * c, base, t);
    assert ([addi] + z)[1..] == z && ([last] + Coalesce(Pop, z))[1..] == Coalesce(Pop, z);
    BaseStaysWrong(Pop, z, base, ExecSlot(L, addi, s), ExecSlot(L, last, t));
  }

  lemma UnsafePop(pairs: seq<Slot>, z: seq<Slot>, base: Reg, j: nat, c: nat, s: LogState, t: LogState)
    requires |pairs| >= 2 && |pairs| % 2 == 0 && c == j + |pairs| / 2 && c <= 255 && j > 0
    requires IsRun(Pop, pairs, base) && Unpinned(pairs) && base != 0
    requires |z| % 2 == 0 && IsRun(Pop, z, base) && Unpinned(z)
    requires s.mem == t.mem && s.regs[base] == 0 == t.regs[base]
    ensures ExecAll(LogMachine(), [pairs[1]] + (pairs[2..] + z), s)
         != ExecAll(LogMachine(), (Chunk(Pop, pairs, j, c) + Coalesce(Pop, z))[1..], t)
  {
    hide LogMachine, Exec, ExecAll, ExecSlot, Chunk, Coalesce, IsRun;
    ChunkTail(Pop, pairs, Coalesce(Pop, z), j, c);
    PopPair(pairs, base);
    var a, b := [pairs[1]] + (pairs[2..] + z), (Chunk(Pop, pairs, j, c) + Coalesce(Pop, z))[1..];
    if |pairs| == 2 {
      assert a == [pairs[1]] + z && b == [WithSi(pairs[1], 8 * c)] + Coalesce(Pop, z);
      UnsafePopLast(pairs[1], z, base, c, s, t);
    } else {
      assert a[0] == pairs[1] && a[1] == pairs[2] && b[0] == WithSi(pairs[2], 8 * (j + 1));
      UnsafePopNext(a, b, base, 8 * (j + 1), s, t);
    }
  }

  lemma PopPair(pairs: seq<Slot>, base: Reg)
    requires |pairs| >= 2 && IsRun(Pop, pairs, base) && Unpinned(pairs)
    ensures !pairs[1].pinned && pairs[1].insn.opc == ADDI_D && pairs[1].insn.si == 8
    ensures pairs[1].insn.dst == base == pairs[1].insn.src
    ensures |pairs| > 2 ==>
              !pairs[2].pinned && pairs[2].insn.opc == LD_D && pairs[2].insn.si == 0 && pairs[2].insn.src == base
  {
    if |pairs| > 2 { assert PairAt(Pop, pairs[2..]); }
  }

  lemma PairTail(pairs: seq<Slot>, z: seq<Slot>)
    requires |pairs| >= 2
    ensures (pairs + z)[1..] == [pairs[1]] + (pairs[2..] + z)
  {
  }

  lemma UnsafePairCaught(k: Kind, pairs: seq<Slot>, z: seq<Slot>, base: Reg, j: nat, c: nat, s: LogState, t: LogState)
    requires |pairs| >= 2 && |pairs| % 2 == 0 && c == j + |pairs| / 2 && c <= k.Max()
    requires IsRun(k, pairs, base) && Unpinned(pairs) && base != 0 && pairs[0].insn.dst == base && j > 0
    requires |z| % 2 == 0 && IsRun(k, z, base) && Unpinned(z)
    requires Lags(k, s, t, base, j)
    ensures ExecAll(LogMachine(), pairs + z, s) != ExecAll(LogMachine(), Chunk(k, pairs, j, c) + Coalesce(k, z), t)
  {
    hide LogMachine, Exec, ExecAll, ExecSlot, Coalesce, Chunk, Lags;
    var a, b := pairs + z, Chunk(k, pairs, j, c) + Coalesce(k, z);
    ChunkTail(k, pairs, Coalesce(k, z), j, c);
    assert a[0] == pairs[0];
    if k.Push? {
      UnsafePush(a, b, base, j, s, t);
    } else {
      var L := LogMachine();
      PopPairLoads(pairs[0], base, j, s, t);
      PairTail(pairs, z);
      ExecFirst(L, a, s);
      ExecFirst(L, b, t);
      UnsafePop(pairs, z, base, j, c, ExecSlot(L, a[0], s), ExecSlot(L, b[0], t));
    }
  }

  /** A pop into the base register leaves both sides with the same history and 0 in it. */
  lemma PopPairLoads(sl: Slot, base: Reg, j: nat, s: LogState, t: LogState)
    requires !sl.pinned && sl.insn.opc == LD_D && sl.insn.si == 0 && sl.insn.dst == base == sl.insn.src
    requires Lags(Pop, s, t, base, j)
    ensures var s', t' := ExecSlot(LogMachine(), sl, s), ExecSlot(LogMachine(), WithSi(sl, 8 * j), t);
            s'.regs[base] == 0 == t'.regs[base] && s'.mem == t'.mem
  {
    SameAddress(Pop, s, t, base, j);
    PopBase(sl, base, s);
    PopBase(WithSi(sl, 8 * j), base, t);
  }

  lemma ExecFirst<M>(m: Machine<M>, a: seq<Slot>, s: State<M>)
    requires a != []
    ensures ExecAll(m, a, s) == ExecAll(m, a[1..], ExecSlot(m, a[0], s))
  {
  }

  lemma PopBase(sl: Slot, base: Reg, s: LogState)
    requires !sl.pinned && sl.insn.opc == LD_D && sl.insn.dst == base
    ensures ExecSlot(LogMachine(), sl, s).regs[base] == 0
    ensures ExecSlot(LogMachine(), sl, s).mem == s.mem + [Read(AddressOf(sl, s))]
  {
  }

  lemma {:induction false} ChunkExact(k: Kind, pairs: seq<Slot>, z: seq<Slot>, base: Reg, j: nat, c: nat, s: LogState,
                                      t: LogState)
    requires |pairs| % 2 == 0 && c == j + |pairs| / 2 && c <= k.Max()
    requires IsRun(k, pairs, base) && Unpinned(pairs) && base != 0 && !ChunkSafe(pairs, base, j)
    requires |z| % 2 == 0 && IsRun(k, z, base) && Unpinned(z)
    requires Lags(k, s, t, base, j)
    ensures ExecAll(LogMachine(), pairs + z, s) != ExecAll(LogMachine(), Chunk(k, pairs, j, c) + Coalesce(k, z), t)
    decreases |pairs|
  {
    if j > 0 && pairs[0].insn.dst == base {
      UnsafePairCaught(k, pairs, z, base, j, c, s, t);
    } else {
      hide LogMachine, ExecSlot, Coalesce, Lags;
      var L := LogMachine();
      var rest := pairs[2..];
      var first := WithSi(pairs[0], k.Offset(j));
      assert rest != [];
      PairLags(L, k, pairs, s, t, base, j);
      ChunkExact(k, rest, z, base, j + 1, c, RunPair(L, pairs, s), ExecSlot(L, first, t));
      DropPair(L, pairs, z, s);
      var b := Chunk(k, pairs, j, c) + Coalesce(k, z);
      ChunkTail(k, pairs, Coalesce(k, z), j, c);
    }
  }

  lemma {:induction false} CoalesceExact(k: Kind, run: seq<Slot>, base: Reg, s: LogState)
    requires |run| % 2 == 0 && IsRun(k, run, base) && Unpinned(run) && base != 0 && !RunSafe(k, run, base)
    ensures ExecAll(LogMachine(), Coalesce(k, run), s) != ExecAll(LogMachine(), run, s)
    decreases |run|
  {
    hide LogMachine, ExecAll, Chunk, IsRun, ChunkSafe;
    var L := LogMachine();
    var c := Min(|run| / 2, k.Max());
    var a, z := run[..2 * c], run[2 * c..];
    IsRunSplit(k, run, base, c);
    WrapSelf(s.regs[base]);
    SplitAt(run, 2 * c);
    assert Unpinned(a) && Unpinned(z);
    if !ChunkSafe(a, base, 0) {
      ChunkExact(k, a, z, base, 0, c, s, s);
    } else {
      ChunkMeaning(L, k, a, base, 0, c, s, s);
      ExecAllAppend(L, Chunk(k, a, 0, c), Coalesce(k, z), s);
      ExecAllAppend(L, a, z, s);
      CoalesceExact(k, z, base, ExecAll(L, a, s));
    }
  }

  /** On base register r0 the `addi.d` has no effect, so the second access already differs. */
  lemma ZeroBaseCaught(k: Kind, run: seq<Slot>, s: LogState)
    requires |run| % 2 == 0 && |run| > 2 && IsRun(k, run, 0) && Unpinned(run)
    ensures ExecAll(LogMachine(), Coalesce(k, run), s) != ExecAll(LogMachine(), run, s)
  {
    var L := LogMachine();
    var merged := Coalesce(k, run);
    CoalesceFront(k, run, 0);
    var s' := ExecSlot(L, run[0], s);
    assert WithSi(run[0], k.PairOffset()) == run[0];
    assert run[1..][1..] == run[2..];
    assert ExecSlot(L, run[1], s') == s';
    assert ExecAll(L, run, s) == ExecAll(L, run[2..], s');
    assert k.PairOffset() == run[2].insn.si;
    AccessDiffers(k, run[2..], merged[1..], s', s');
  }

  /** Coalescing a run without live relocations is right exactly when the run is safe:
      otherwise it shows in the accesses or registers from every start state. */
  lemma RunExact(k: Kind, run: seq<Slot>, base: Reg, s: LogState)
    requires |run| % 2 == 0 && IsRun(k, run, base) && Unpinned(run)
    ensures ExecAll(LogMachine(), Coalesce(k, run), s) == ExecAll(LogMachine(), run, s) <==> Safe(k, run, base)
  {
    if Safe(k, run, base) {
      RunMeaning(LogMachine(), k, run, base, s);
    } else if base == 0 {
      ZeroBaseCaught(k, run, s);
    } else {
      CoalesceExact(k, run, base, s);
    }
  }
}
