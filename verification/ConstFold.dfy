/** Constant rematerialisation (lib/Vistor/Lu12i_Ori_Vistor.cpp and
    lib/Vistor/Lu12i_Ori_Lu32i_Vistor.cpp) as a function on slots: a group that builds a
    constant is replaced by one `addi.d` from a register already known to hold a constant
    near by.  The two passes differ in the length of the group and in that only the shorter
    one asks whether a live relocation covers it. */
module ConstFold {
  import opened Isa
  import opened LinkLists

  datatype Shape = LuOri | LuOriLu32 {
    function Len(): nat { if LuOri? then 2 else 3 }
  }

  /** is_lu12i_ori_pattern and is_lu12i_ori_lu32i_pattern */
  predicate GroupAt(g: Shape, s: seq<Slot>) {
    && |s| >= g.Len()
    && s[0].insn.opc == LU12I_W
    && s[1].insn.opc == ORI && s[1].insn.dst == s[0].insn.dst == s[1].insn.src
    && (g.LuOriLu32? ==> s[2].insn.opc == LU32I_D && s[2].insn.dst == s[0].insn.dst)
  }

  /** simulate_lu12i_w, simulate_ori and simulate_lu32i_d, on the signed value: the shifts by
      12 and 32 multiply, and the masks keep the low 12 and 32 bits. */
  function SimulateLu12i(si: int): int { si * 4096 }
  function SimulateOri(reg: int, ui: nat): int { OrBits(reg, ui, 12) }
  function SimulateLu32i(reg: int, si: int): int { si * TWO32 + reg % TWO32 }

  /** get_lu12i_ori_res and get_lu12i_ori_lu32i_res */
  function Value(g: Shape, s: seq<Slot>): int
    requires GroupAt(g, s)
  {
    var low := SimulateOri(SimulateLu12i(s[0].insn.si), s[1].insn.ui);
    if g.LuOri? then low else SimulateLu32i(low, s[2].insn.si)
  }

  predicate Near(imm: int) { -2048 <= imm <= 2047 }

  type Consts = map<Reg, int>

  function Record(K: Consts, r: Reg, v: int): Consts { if r == 0 then K else K[r := v] }

  /** The lowest register from i on that is known to hold a constant near c. */
  function Source(K: Consts, c: int, i: nat): (r: Option<Reg>)
    requires i <= 32
    ensures r.Some? ==> i <= r.value && r.value in K && Near(c - K[r.value])
    ensures r.Some? ==> forall q: Reg :: i <= q < r.value && q in K ==> !Near(c - K[q])
    ensures r.None? ==> forall q: Reg :: i <= q && q in K ==> !Near(c - K[q])
    decreases 32 - i
  {
    if i == 32 then None
    else if i in K && Near(c - K[i]) then Some(i)
    else Source(K, c, i + 1)
  }

  function AddiInsn(d: Reg, src: Reg, imm: int): Insn { Insn(ADDI_D, d, src, imm, 0, 0, 0) }

  predicate Pinned(g: Shape, s: seq<Slot>)
    requires |s| >= g.Len()
  {
    s[0].pinned || s[1].pinned || (g.LuOriLu32? && s[2].pinned)
  }

  /** Whether the pass takes the group at the front: inside the inner loop the two-instruction
      pass leaves groups under a live relocation alone. */
  predicate Takes(g: Shape, s: seq<Slot>, inner: bool) {
    GroupAt(g, s) && !(inner && g.LuOri? && Pinned(g, s))
  }

  /** What the pass puts in place of the group at the front. */
  function Replacement(g: Shape, s: seq<Slot>, K: Consts, inner: bool): seq<Slot>
    requires GroupAt(g, s)
  {
    var c := Value(g, s);
    var src := if inner then Source(K, c, 1) else None;
    if src.Some? then [Slot(AddiInsn(s[0].insn.dst, src.value, c - K[src.value]), false)] else s[..g.Len()]
  }

  function Killed(K: Consts, r: Reg, inner: bool): Consts { if inner then K - {r} else K }

  /** The pass from the front of s on, in the inner loop with constants K or in the outer loop
      (where no constant is known). */
  function Pass(g: Shape, s: seq<Slot>, K: Consts, inner: bool): seq<Slot>
    decreases |s|
  {
    if s == [] then []
    else if Takes(g, s, inner) then
      Replacement(g, s, K, inner) + Pass(g, s[g.Len()..], Record(K, s[0].insn.dst, Value(g, s)), true)
    else if StopsPass(s[0].insn.opc) then s
    else
      var K' := Killed(K, s[0].insn.dst, inner);
      [s[0]] + Pass(g, s[1..], K', inner && K' != map[])
  }

  /** No group the pass takes is under a live relocation. */
  predicate Unrelocated(g: Shape, s: seq<Slot>, K: Consts, inner: bool)
    decreases |s|
  {
    if s == [] then true
    else if Takes(g, s, inner) then
      !Pinned(g, s) && Unrelocated(g, s[g.Len()..], Record(K, s[0].insn.dst, Value(g, s)), true)
    else if StopsPass(s[0].insn.opc) then true
    else
      var K' := Killed(K, s[0].insn.dst, inner);
      Unrelocated(g, s[1..], K', inner && K' != map[])
  }

  // ----- what the pass does, in terms of instructions -----

  /** `lu12i.w d, x; ori d, d, y`, and for the longer group `lu32i.d d, z` behind it. */
  predicate Builds(g: Shape, s: seq<Slot>, d: Reg) {
    && |s| >= (if g.LuOri? then 2 else 3)
    && s[0].insn.opc == LU12I_W && s[0].insn.dst == d
    && s[1].insn.opc == ORI && s[1].insn.dst == d && s[1].insn.src == d
    && (g.LuOriLu32? ==> s[2].insn.opc == LU32I_D && s[2].insn.dst == d)
  }

  /** The evaluated constant, bit by bit: twelve bits from the `ori` on top of the shifted `lu12i.w`, and
      with the longer group everything from bit 32 on from the `lu32i.d`. */
  lemma ValueBits(g: Shape, s: seq<Slot>, k: nat)
    requires GroupAt(g, s)
    ensures Bit(Value(g, s), k) <==>
              if g.LuOriLu32? && k >= 32 then Bit(s[2].insn.si, k - 32)
              else if k >= 12 then Bit(s[0].insn.si, k - 12) else Bit(s[1].insn.ui, k)
  {
    hide Bit, OrBits, Shifted;
    var x, u := s[0].insn.si, s[1].insn.ui;
    var low := SimulateOri(SimulateLu12i(x), u);
    Twelve(1);
    Twelve(x);
    NoBits(k);
    BitJoin(x, 0, 12, k);
    OrBit(4096 * x, u, 12, k);
    if g.LuOriLu32? {
      ThirtyTwo(1);
      ThirtyTwo(s[2].insn.si);
      ThirtyTwo(low / TWO32);
      BitJoin(s[2].insn.si, low % TWO32, 32, k);
      BitJoin(low / TWO32, low % TWO32, 32, k);
      assert TWO32 * (low / TWO32) + low % TWO32 == low;
    }
  }

  lemma {:induction false} NoBits(k: nat)
    ensures !Bit(0, k)
  {
    if k > 0 { NoBits(k - 1); }
  }

  lemma ThirtyTwo(x: int)
    ensures Shifted(x, 32) == TWO32 * x
  {
    Twelve(x);
    FourMore(x, 12);
    FourMore(x, 16);
    FourMore(x, 20);
    FourMore(x, 24);
    FourMore(x, 28);
  }

  /** Register q, other than r0, holds a constant from which c is a signed twelve-bit immediate away, so that
      there is an `addi.d` for it. */
  predicate Buildable(K: Consts, c: int, d: Reg, q: Reg) {
    1 <= q && q in K && -2048 <= c - K[q] < 2048 && Decoded(Insn(ADDI_D, d, q, c - K[q], 0, 0, 0))
  }

  ghost predicate Lowest(K: Consts, c: int, d: Reg, q: Reg) {
    Buildable(K, c, d, q) && forall r: Reg :: Buildable(K, c, d, r) ==> q <= r
  }

  /** A source is found exactly if there is such a register, and it is the lowest of them. */
  lemma SourceExact(K: Consts, c: int, d: Reg)
    ensures Source(K, c, 1).Some? <==> exists q: Reg :: Buildable(K, c, d, q)
    ensures Source(K, c, 1).Some? ==> Lowest(K, c, d, Source(K, c, 1).value)
  {
    hide Source;
    forall q: Reg
      ensures Buildable(K, c, d, q) <==> 1 <= q && q in K && Near(c - K[q])
    {
    }
    var r := Source(K, c, 1);
    if r.Some? { assert Buildable(K, c, d, r.value); }
  }

  /** A group at the front, unless the shorter pass meets it relocated in its inner loop: in the inner loop it
      is replaced by one `addi.d` from the lowest register that allows it; otherwise it stays.  Either way
      its constant is recorded, but never for r0. */
  lemma PassBuilds(g: Shape, s: seq<Slot>, K: Consts, inner: bool, d: Reg) returns (q: Option<Reg>)
    requires Builds(g, s, d) && !(inner && g.LuOri? && (s[0].pinned || s[1].pinned))
    ensures GroupAt(g, s) && s[0].insn.dst == d
    ensures q.Some? ==> inner && Lowest(K, Value(g, s), d, q.value)
    ensures q.None? ==> !inner || forall r: Reg :: !Buildable(K, Value(g, s), d, r)
    ensures var c, rest := Value(g, s), s[if g.LuOri? then 2 else 3..];
            Pass(g, s, K, inner)
              == (if q.Some? then [Slot(Insn(ADDI_D, d, q.value, c - K[q.value], 0, 0, 0), false)]
                  else s[..if g.LuOri? then 2 else 3])
                 + Pass(g, rest, if d == 0 then K else K[d := c], true)
  {
    hide Value, Source, Buildable, Pass;
    BuildsIs(g, s, d);
    SourceExact(K, Value(g, s), d);
    q := if inner then Source(K, Value(g, s), 1) else None;
    PassTake(g, s, K, inner);
  }

  lemma BuildsIs(g: Shape, s: seq<Slot>, d: Reg)
    ensures Builds(g, s, d) <==> GroupAt(g, s) && s[0].insn.dst == d
  {
  }

  /** Any other instruction stays; up to the first B or BNE, where the pass stops, the constant of the register
      it names is forgotten, and with the last constant the inner loop ends. */
  lemma PassPlain(g: Shape, s: seq<Slot>, K: Consts, inner: bool)
    requires s != []
    requires Builds(g, s, s[0].insn.dst) ==> inner && g.LuOri? && (s[0].pinned || s[1].pinned)
    ensures var K' := if inner then K - {s[0].insn.dst} else K;
            Pass(g, s, K, inner)
              == if s[0].insn.opc == B || s[0].insn.opc == BNE then s
                 else [s[0]] + Pass(g, s[1..], K', inner && K' != map[])
  {
  }

  /** What has an encoding keeps one. */
  lemma {:induction false} PassDecoded(g: Shape, s: seq<Slot>, K: Consts, inner: bool)
    requires forall i :: 0 <= i < |s| ==> Decoded(s[i].insn)
    ensures forall i :: 0 <= i < |Pass(g, s, K, inner)| ==> Decoded(Pass(g, s, K, inner)[i].insn)
    decreases |s|
  {
    hide Value, Pinned, Decoded, Source, Buildable, Pass, Lowest;
    if s == [] {
      PassStop(g, s, K, inner);
    } else if Builds(g, s, s[0].insn.dst) && !(inner && g.LuOri? && (s[0].pinned || s[1].pinned)) {
      var d := s[0].insn.dst;
      var q := PassBuilds(g, s, K, inner, d);
      if q.Some? { LowestDecoded(K, Value(g, s), d, q.value); }
      PassDecoded(g, s[if g.LuOri? then 2 else 3..], if d == 0 then K else K[d := Value(g, s)], true);
    } else {
      PassPlain(g, s, K, inner);
      if s[0].insn.opc != B && s[0].insn.opc != BNE {
        var K' := if inner then K - {s[0].insn.dst} else K;
        PassDecoded(g, s[1..], K', inner && K' != map[]);
      }
    }
  }

  lemma LowestDecoded(K: Consts, c: int, d: Reg, q: Reg)
    requires Lowest(K, c, d, q)
    ensures q in K && Decoded(Insn(ADDI_D, d, q, c - K[q], 0, 0, 0))
  {
  }

  // ----- the constants are right -----

  ghost predicate Known<M>(K: Consts, st: State<M>) {
    0 !in K && forall r :: r in K ==> st.regs[r] == Wrap(K[r])
  }

  lemma WrapLow(x: int)
    ensures Wrap(x) % 4096 == x % 4096
    ensures Wrap(x) % TWO32 == x % TWO32
  {
    var q := x / TWO64;
    assert x == q * TWO64 + Wrap(x);
    assert q * TWO64 == (q * (TWO64 / 4096)) * 4096;
    assert q * TWO64 == (q * TWO32) * TWO32;
  }

  lemma OriWraps(x: int, ui: nat)
    ensures Wrap(OrBits(Wrap(x), ui, 12)) == Wrap(OrBits(x, ui, 12))
  {
    hide OrBits;
    WrapLow(x);
    OrLow(x, ui);
    OrLow(Wrap(x), ui);
    WrapAdd(x, OrBits(x % 4096, ui, 12) - x % 4096);
  }

  lemma Lu32iWraps(x: int, si: int)
    ensures Wrap(si * TWO32 + Wrap(x) % TWO32) == Wrap(SimulateLu32i(x, si))
  {
    WrapLow(x);
  }

  lemma NotPinned(g: Shape, s: seq<Slot>)
    requires GroupAt(g, s) && !Pinned(g, s)
    ensures !s[0].pinned && !s[1].pinned && (g.LuOriLu32? ==> !s[2].pinned)
  {
  }

  /** Evaluating a group at compile time gives what running it leaves in its register. */
  lemma GroupExec<M>(m: Machine<M>, g: Shape, s: seq<Slot>, st: State<M>)
    requires GroupAt(g, s) && !Pinned(g, s)
    ensures ExecAll(m, s[..g.Len()], st) == SetReg(st, s[0].insn.dst, Value(g, s))
  {
    hide Wrap, OrBits, ExecAll, Pinned;
    NotPinned(g, s);
    var d := s[0].insn.dst;
    var x := SimulateLu12i(s[0].insn.si);
    var y := SimulateOri(x, s[1].insn.ui);
    var st1 := SetReg(st, d, x);
    var st2 := SetReg(st, d, y);
    OriWraps(x, s[1].insn.ui);
    Lu32iWraps(y, if g.LuOri? then 0 else s[2].insn.si);
    assert ExecSlot(m, s[0], st) == st1;
    assert d != 0 ==> st1.regs[d := Wrap(y)] == st.regs[d := Wrap(y)];
    assert ExecSlot(m, s[1], st1) == st2;
    if g.LuOri? {
      assert s[..2] == [s[0], s[1]];
      ExecTwo(m, s[0], s[1], st);
    } else {
      var z := Value(g, s);
      assert d != 0 ==> st2.regs[d := Wrap(z)] == st.regs[d := Wrap(z)];
      assert ExecSlot(m, s[2], st2) == SetReg(st, d, z);
      assert s[..3] == [s[0], s[1], s[2]];
      ExecThree(m, s[0], s[1], s[2], st);
    }
  }

  /** `addi.d` from a known register rebuilds the exact constant. */
  lemma AddiExec<M>(m: Machine<M>, K: Consts, d: Reg, src: Reg, c: int, st: State<M>)
    requires Known(K, st) && src in K
    ensures ExecSlot(m, Slot(AddiInsn(d, src, c - K[src]), false), st) == SetReg(st, d, c)
  {
    WrapAdd(K[src], c - K[src]);
  }

  lemma KnownRecord<M>(K: Consts, d: Reg, c: int, st: State<M>)
    requires Known(K, st)
    ensures Known(Record(K, d, c), SetReg(st, d, c))
  {
  }

  lemma KnownKill<M(!new)>(m: Machine<M>, K: Consts, sl: Slot, st: State<M>)
    requires Known(K, st) && WritesOnlyDst(m)
    ensures Known(K - {sl.insn.dst}, ExecSlot(m, sl, st))
  {
    var st' := ExecSlot(m, sl, st);
    forall r | r in K - {sl.insn.dst}
      ensures st'.regs[r] == st.regs[r]
    {
    }
  }

  lemma GroupStraight(g: Shape, s: seq<Slot>)
    requires GroupAt(g, s)
    ensures Straight(s[..g.Len()])
  {
  }

  /** A group at the front, taken or replaced, then the rest. */
  lemma GroupInFront<M>(m: Machine<M>, g: Shape, s: seq<Slot>, K: Consts, inner: bool, rest: seq<Slot>, st: State<M>)
    requires GroupAt(g, s) && !Pinned(g, s) && Known(K, st)
    requires var st1 := SetReg(st, s[0].insn.dst, Value(g, s));
             RunPrefix(m, rest, st1) == RunPrefix(m, s[g.Len()..], st1)
    ensures RunPrefix(m, Replacement(g, s, K, inner) + rest, st) == RunPrefix(m, s, st)
  {
    hide *;
    LenAtMost(g, s);
    var c, d := Value(g, s), s[0].insn.dst;
    GroupStraight(g, s);
    GroupExec(m, g, s, st);
    RunPrefixAppend(m, s[..g.Len()], s[g.Len()..], st);
    SplitAt(s, g.Len());
    ReplacementIs(g, s, K, inner);
    var src := if inner then Source(K, c, 1) else None;
    if src.Some? {
      AddiExec(m, K, d, src.value, c, st);
      RunPrefixCons(m, Slot(AddiInsn(d, src.value, c - K[src.value]), false), rest, st);
    } else {
      RunPrefixAppend(m, s[..g.Len()], rest, st);
    }
  }

  lemma ReplacementIs(g: Shape, s: seq<Slot>, K: Consts, inner: bool)
    requires GroupAt(g, s)
    ensures var c, d := Value(g, s), s[0].insn.dst;
            var src := if inner then Source(K, c, 1) else None;
            && (src.Some? ==>
                  && src.value in K
                  && Replacement(g, s, K, inner) == [Slot(AddiInsn(d, src.value, c - K[src.value]), false)])
            && (src.None? ==> Replacement(g, s, K, inner) == s[..g.Len()])
    ensures forall d: Reg, r: Reg, i: int :: !StopsPass(AddiInsn(d, r, i).opc)
  {
    hide Value, GroupAt, Source;
  }

  /** One step of the pass, when it takes a group and when it does not. */
  lemma PassTake(g: Shape, s: seq<Slot>, K: Consts, inner: bool)
    requires s != [] && Takes(g, s, inner)
    ensures GroupAt(g, s)
    ensures var K' := Record(K, s[0].insn.dst, Value(g, s));
            && Pass(g, s, K, inner) == Replacement(g, s, K, inner) + Pass(g, s[g.Len()..], K', true)
            && (Unrelocated(g, s, K, inner) ==> !Pinned(g, s) && Unrelocated(g, s[g.Len()..], K', true))
  {
  }

  lemma PassSkip(g: Shape, s: seq<Slot>, K: Consts, inner: bool)
    requires s != [] && !Takes(g, s, inner) && !StopsPass(s[0].insn.opc)
    ensures var K' := Killed(K, s[0].insn.dst, inner);
            && Pass(g, s, K, inner) == [s[0]] + Pass(g, s[1..], K', inner && K' != map[])
            && (Unrelocated(g, s, K, inner) ==> Unrelocated(g, s[1..], K', inner && K' != map[]))
  {
  }

  lemma PassStop(g: Shape, s: seq<Slot>, K: Consts, inner: bool)
    requires s == [] || (!Takes(g, s, inner) && StopsPass(s[0].insn.opc))
    ensures Pass(g, s, K, inner) == s
  {
  }

  lemma KnownKilled<M(!new)>(m: Machine<M>, K: Consts, sl: Slot, inner: bool, st: State<M>)
    requires Known(K, st) && WritesOnlyDst(m) && (inner || K == map[])
    ensures Known(Killed(K, sl.insn.dst, inner), ExecSlot(m, sl, st))
    ensures !(inner && Killed(K, sl.insn.dst, inner) != map[]) ==> Killed(K, sl.insn.dst, inner) == map[]
  {
    if inner { KnownKill(m, K, sl, st); }
  }

  /** The pass preserves the state in which the first B or BNE is reached, and the code from
      there on, from every start state and on every machine whose uninterpreted
      instructions write at most their destination register and memory. */
  lemma {:induction false} PassMeaning<M(!new)>(m: Machine<M>, g: Shape, s: seq<Slot>, K: Consts, inner: bool,
                                                st: State<M>)
    requires WritesOnlyDst(m) && Unrelocated(g, s, K, inner) && Known(K, st) && (inner || K == map[])
    ensures RunPrefix(m, Pass(g, s, K, inner), st) == RunPrefix(m, s, st)
    decreases |s|
  {
    hide *;
    if s == [] {
      PassStop(g, s, K, inner);
    } else if Takes(g, s, inner) {
      PassTake(g, s, K, inner);
      var c, d := Value(g, s), s[0].insn.dst;
      KnownRecord(K, d, c, st);
      LenAtMost(g, s);
      PassMeaning(m, g, s[g.Len()..], Record(K, d, c), true, SetReg(st, d, c));
      GroupInFront(m, g, s, K, inner, Pass(g, s[g.Len()..], Record(K, d, c), true), st);
    } else if StopsPass(s[0].insn.opc) {
      PassStop(g, s, K, inner);
    } else {
      PassSkip(g, s, K, inner);
      var K' := Killed(K, s[0].insn.dst, inner);
      var st' := ExecSlot(m, s[0], st);
      KnownKilled(m, K, s[0], inner, st);
      PassMeaning(m, g, s[1..], K', inner && K' != map[], st');
      RunPrefixCons(m, s[0], Pass(g, s[1..], K', inner && K' != map[]), st);
      RunPrefixCons(m, s[0], s[1..], st);
      SplitAt(s, 1);
      assert s[..1] == [s[0]];
    }
  }

  lemma LenAtMost(g: Shape, s: seq<Slot>)
    requires GroupAt(g, s)
    ensures 2 <= g.Len() <= |s|
  {
  }

  /** With the immediates a decoder produces, evaluated constants are far from the ends of a
      64-bit signed integer, so the difference of two of them cannot overflow. */
  lemma ValueRange(g: Shape, s: seq<Slot>)
    requires GroupAt(g, s) && Decoded(s[0].insn) && Decoded(s[1].insn) && (g.LuOriLu32? ==> Decoded(s[2].insn))
    ensures -0x8_0000_0000_0000 <= Value(g, s) < 0x8_0000_0000_0000
    ensures g.LuOri? ==> -0x8000_0000 <= Value(g, s) < 0x8000_0000
  {
    hide OrBits;
    var x := SimulateLu12i(s[0].insn.si);
    assert x % 4096 == 0;
    OrLow(x, s[1].insn.ui);
  }

  // ----- idempotence -----

  /** No group at all is under a live relocation. */
  predicate GroupsFree(g: Shape, s: seq<Slot>)
    decreases |s|
  {
    s == [] || ((GroupAt(g, s) ==> !Pinned(g, s)) && GroupsFree(g, s[1..]))
  }

  lemma {:induction false} GroupsFreeTail(g: Shape, s: seq<Slot>, n: nat)
    requires GroupsFree(g, s) && n <= |s|
    ensures GroupsFree(g, s[n..])
  {
    if n > 0 {
      GroupsFreeTail(g, s[1..], n - 1);
      assert s[1..][n - 1..] == s[n..];
    } else {
      assert s[0..] == s;
    }
  }

  /** Without relocated groups it does not matter whether a scan that knows no constant is in
      the inner or the outer loop. */
  lemma ScanIsInner(g: Shape, s: seq<Slot>)
    requires GroupsFree(g, s)
    ensures Pass(g, s, map[], false) == Pass(g, s, map[], true)
  {
    if s != [] {
      var K: Consts := map[] - {s[0].insn.dst};
      assert K == map[];
    }
  }

  /** The pass leaves the front instruction alone or puts an `addi.d` there. */
  lemma FrontKept(g: Shape, s: seq<Slot>, K: Consts, inner: bool)
    ensures var t := Pass(g, s, K, inner);
            && (s == [] <==> t == [])
            && (t != [] && t[0].insn.opc != ADDI_D ==> t[0] == s[0])
  {
  }

  /** The pass creates no new group at the front when it keeps the front instruction. */
  lemma NoNewGroup(g: Shape, s: seq<Slot>, K: Consts, inner: bool)
    requires s != [] && !GroupAt(g, s)
    ensures !GroupAt(g, [s[0]] + Pass(g, s[1..], K, inner))
  {
    var t := Pass(g, s[1..], K, inner);
    FrontKept(g, s[1..], K, inner);
    if |s| >= 2 && s[1].insn.opc == ORI {
      var K' := if inner then K - {s[1].insn.dst} else K;
      assert s[1..][1..] == s[2..];
      FrontKept(g, s[2..], K', inner && K' != map[]);
      assert t == [s[1]] + Pass(g, s[2..], K', inner && K' != map[]);
    }
  }

  lemma FreeFront(g: Shape, s: seq<Slot>, rest: seq<Slot>)
    requires GroupAt(g, s) && !Pinned(g, s) && GroupsFree(g, rest)
    ensures GroupsFree(g, s[..g.Len()] + rest)
  {
    var u := s[..g.Len()] + rest;
    assert u[1..][0].insn.opc == ORI;
    if g.LuOri? {
      assert u[1..][1..] == rest;
    } else {
      assert u[1..][1..][0] == s[2] && u[1..][1..][1..] == rest;
    }
  }

  lemma FreeReplacement(g: Shape, s: seq<Slot>, K: Consts, inner: bool, rest: seq<Slot>)
    requires GroupAt(g, s) && !Pinned(g, s) && GroupsFree(g, rest)
    ensures GroupsFree(g, Replacement(g, s, K, inner) + rest)
  {
    var f := Replacement(g, s, K, inner);
    if f == s[..g.Len()] {
      FreeFront(g, s, rest);
    } else {
      ConsTail(f[0], rest);
      assert f == [f[0]];
    }
  }

  /** Groups the pass leaves behind were there before. */
  lemma {:induction false} GroupsFreeAfter(g: Shape, s: seq<Slot>, K: Consts, inner: bool)
    requires GroupsFree(g, s)
    ensures GroupsFree(g, Pass(g, s, K, inner))
    decreases |s|
  {
    if s == [] {
    } else if Takes(g, s, inner) {
      PassTake(g, s, K, inner);
      GroupsFreeTail(g, s, g.Len());
      var K' := Record(K, s[0].insn.dst, Value(g, s));
      GroupsFreeAfter(g, s[g.Len()..], K', true);
      FreeReplacement(g, s, K, inner, Pass(g, s[g.Len()..], K', true));
    } else if !StopsPass(s[0].insn.opc) {
      PassSkip(g, s, K, inner);
      var K' := Killed(K, s[0].insn.dst, inner);
      GroupsFreeTail(g, s, 1);
      GroupsFreeAfter(g, s[1..], K', inner && K' != map[]);
      ConsTail(s[0], Pass(g, s[1..], K', inner && K' != map[]));
      if !GroupAt(g, s) { NoNewGroup(g, s, K', inner && K' != map[]); }
    }
  }

  ghost predicate SubMap(K: Consts, L: Consts) { forall r :: r in K ==> r in L && L[r] == K[r] }

  /** Knowing less, a second run finds no register the first run did not find. */
  lemma SourceNone(K: Consts, L: Consts, c: int, i: nat)
    requires SubMap(K, L) && i <= 32 && Source(L, c, i) == None
    ensures Source(K, c, i) == None
  {
  }

  /** At corresponding points the second run knows a part of what the first one knew there. */
  lemma {:induction false} PassAgain(g: Shape, s: seq<Slot>, L: Consts, K: Consts)
    requires GroupsFree(g, s) && SubMap(K, L)
    ensures Pass(g, Pass(g, s, L, true), K, true) == Pass(g, s, L, true)
    decreases |s|
  {
    var t := Pass(g, s, L, true);
    if s == [] {
    } else if GroupAt(g, s) {
      if Source(L, Value(g, s), 1).Some? {
        AddiAgain(g, s, L, K);
      } else {
        KeepAgain(g, s, L, K);
      }
    } else if !StopsPass(s[0].insn.opc) {
      SkipAgain(g, s, L, K);
    }
  }

  lemma KeepAgain(g: Shape, s: seq<Slot>, L: Consts, K: Consts)
    requires GroupAt(g, s) && GroupsFree(g, s) && SubMap(K, L) && Source(L, Value(g, s), 1).None?
    ensures Pass(g, Pass(g, s, L, true), K, true) == Pass(g, s, L, true)
    decreases |s|, 0
  {
    hide Value, Source, Pinned;
    PassTake(g, s, L, true);
    GroupsFreeTail(g, s, g.Len());
    var c, d := Value(g, s), s[0].insn.dst;
    var rest := Pass(g, s[g.Len()..], Record(L, d, c), true);
    SourceNone(K, L, c, 1);
    PassAgain(g, s[g.Len()..], Record(L, d, c), Record(K, d, c));
    var u := s[..g.Len()] + rest;
    FrontAgain(g, s, rest);
    PassTake(g, u, K, true);
  }

  lemma FrontAgain(g: Shape, s: seq<Slot>, rest: seq<Slot>)
    requires GroupAt(g, s) && !Pinned(g, s)
    ensures var u := s[..g.Len()] + rest;
            && u[g.Len()..] == rest && u[..g.Len()] == s[..g.Len()] && u[0] == s[0]
            && GroupAt(g, u) && !Pinned(g, u) && Value(g, u) == Value(g, s)
  {
  }

  lemma AddiAgain(g: Shape, s: seq<Slot>, L: Consts, K: Consts)
    requires GroupAt(g, s) && GroupsFree(g, s) && SubMap(K, L) && Source(L, Value(g, s), 1).Some?
    ensures Pass(g, Pass(g, s, L, true), K, true) == Pass(g, s, L, true)
    decreases |s|, 0
  {
    PassTake(g, s, L, true);
    GroupsFreeTail(g, s, g.Len());
    var c, d := Value(g, s), s[0].insn.dst;
    var L' := Record(L, d, c);
    var rest := Pass(g, s[g.Len()..], L', true);
    var a := Replacement(g, s, L, true)[0];
    ConsTail(a, rest);
    var K' := K - {d};
    GroupsFreeAfter(g, s[g.Len()..], L', true);
    ScanIsInner(g, rest);
    PassAgain(g, s[g.Len()..], L', K');
    PassSkip(g, [a] + rest, K, true);
  }

  lemma SkipAgain(g: Shape, s: seq<Slot>, L: Consts, K: Consts)
    requires s != [] && !GroupAt(g, s) && !StopsPass(s[0].insn.opc) && GroupsFree(g, s) && SubMap(K, L)
    ensures Pass(g, Pass(g, s, L, true), K, true) == Pass(g, s, L, true)
    decreases |s|, 0
  {
    PassSkip(g, s, L, true);
    var L', K' := L - {s[0].insn.dst}, K - {s[0].insn.dst};
    var rest := Pass(g, s[1..], L', L' != map[]);
    GroupsFreeTail(g, s, 1);
    ScanIsInner(g, s[1..]);
    GroupsFreeAfter(g, s[1..], L', L' != map[]);
    ScanIsInner(g, rest);
    NoNewGroup(g, s, L', L' != map[]);
    PassAgain(g, s[1..], L', K');
    ConsTail(s[0], rest);
    PassSkip(g, [s[0]] + rest, K, true);
  }

  /** Running the pass twice is running it once, when no group is under a live relocation. */
  lemma PassIdempotent(g: Shape, s: seq<Slot>)
    requires GroupsFree(g, s)
    ensures Pass(g, Pass(g, s, map[], false), map[], false) == Pass(g, s, map[], false)
  {
    ScanIsInner(g, s);
    GroupsFreeAfter(g, s, map[], false);
    ScanIsInner(g, Pass(g, s, map[], false));
    PassAgain(g, s, map[], map[]);
  }
}
