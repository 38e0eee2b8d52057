/** lib/Vistor/RemoveTailVistor.cpp: deletes the code behind an exit whose successor is linked. */
module RemoveTail {
  import opened Blocks
  import opened Tbs

  /** `remain`: the length of the tail behind exit w, up to the true exit for the false one. */
  function Remain(b: Block, w: nat): int
    requires Shaped(b) && w < 2
  {
    if w == 0 && ValidExit(b, 1) then b.target[1] / 4 - b.target[0] / 4 - 1
    else |b.code| - b.target[w] / 4 - 1
  }

  function Trim(b: Block, w: nat): (r: Block)
    requires Shaped(b) && w < 2 && b.target[w] / 4 + 1 <= |b.code|
    requires b.target[w] / 4 + 1 + Remain(b, w) <= |b.code|
    ensures Shaped(r) && |r.live| == |b.live|
  {
    if Remain(b, w) <= 0 then b else Cut(b, b.target[w] / 4 + 1, Remain(b, w))
  }

  lemma RemainFits(b: Block, w: nat)
    requires Wf(b) && w < 2 && ValidExit(b, w)
    ensures b.target[w] / 4 + 1 <= |b.code| && b.target[w] / 4 + 1 + Remain(b, w) <= |b.code|
  {
    assert ExitOk(b, 0) && ExitOk(b, 1);
  }

  /** remove_tail_of */
  method RemoveTailOf(tb: TB, which: nat)
    requires tb.Valid() && Wf(tb.View()) && which < 2 && ValidExit(tb.View(), which)
    modifies tb`rels, tb`relsValid, tb`jmpTarget, tb`bInsns, tb`bneInsns, tb`otherBInsns, tb.insns, tb.insns.Repr
    ensures tb.Valid() && tb.insns.Repr == old(tb.insns.Repr)
    ensures var b := old(tb.View());
            && b.target[which] / 4 + 1 <= |b.code| && b.target[which] / 4 + 1 + Remain(b, which) <= |b.code|
            && tb.View() == if (if which == 1 then tb.trueBranch else tb.falseBranch) != null then Trim(b, which) else b
  {
    hide *;
    ghost var b := tb.View();
    TailStart(tb, which);
    var branchIndex := tb.jmpTarget[which] / 4;
    var total := tb.insns.size;
    var stop: int := if which == 0 && tb.jmpReset[1] != INVALID then tb.jmpTarget[1] / 4 else total;
    var remain: int := stop - branchIndex - 1;
    var insn := tb.insns.Get(branchIndex);
    if (if which == 1 then tb.trueBranch else tb.falseBranch) != null && remain > 0 {
      var go := insn.next;
      var _ := tb.DeleteRun(go, branchIndex + 1, remain);
    }
  }

  /** Where remove_tail_of starts and what it aims at, in terms of the fields of the block. */
  lemma TailStart(tb: TB, w: nat)
    requires tb.Valid() && Wf(tb.View()) && w < 2 && ValidExit(tb.View(), w)
    ensures tb.insns.Valid() && |tb.jmpTarget| == 2 == |tb.jmpReset| && RefsOk(tb.View()) && BranchExact(tb.View())
    ensures tb.jmpTarget == tb.View().target && |tb.View().code| == tb.insns.size
    ensures |tb.insns.chain| == tb.insns.size + 2
    ensures tb.jmpTarget[w] / 4 + 1 <= tb.insns.size && tb.jmpTarget[w] / 4 + 1 + Remain(tb.View(), w) <= tb.insns.size
    ensures Remain(tb.View(), w) == if w == 0 && tb.jmpReset[1] != INVALID
              then tb.jmpTarget[1] / 4 - tb.jmpTarget[0] / 4 - 1
                                    else tb.insns.size - tb.jmpTarget[w] / 4 - 1
    ensures tb.insns.chain[tb.jmpTarget[w] / 4 + 1].next == tb.insns.chain[tb.jmpTarget[w] / 4 + 2]
    ensures Trim(tb.View(), w) == if Remain(tb.View(), w) <= 0 then tb.View()
                                  else Cut(tb.View(), tb.jmpTarget[w] / 4 + 1, Remain(tb.View(), w))
  {
    RemainFits(tb.View(), w);
  }

  /** Trimming behind one exit keeps the block well formed and both exits on their own B. */
  lemma TrimWf(b: Block, w: nat)
    requires Wf(b) && w < 2 && ValidExit(b, w)
    requires w == 1 && ValidExit(b, 0) ==> b.target[0] < b.target[1]
    ensures b.target[w] / 4 + 1 <= |b.code| && b.target[w] / 4 + 1 + Remain(b, w) <= |b.code|
    ensures Wf(Trim(b, w)) && Trim(b, w).reset == b.reset
    ensures Trim(b, w).target[w] == b.target[w]
    ensures w == 0 && ValidExit(b, 1) && b.target[0] < b.target[1] ==> Trim(b, w).target[1] == b.target[0] + 4
    ensures w == 1 && ValidExit(b, 0) ==> Trim(b, w).target[0] == b.target[0]
  {
    hide RelsFit, RelsApart, BranchExact;
    RemainFits(b, w);
    assert ExitOk(b, 0) && ExitOk(b, 1);
    var p, n := b.target[w] / 4 + 1, Remain(b, w);
    if n > 0 {
      CutWf(b, p, n);
    }
  }

  /** What visit does, by cases on the valid exits and linked successors. */
  ghost predicate Trimmed(b: Block, trueLinked: bool, falseLinked: bool, c: Block) {
    && Shaped(b)
    && if ValidExit(b, 0) && ValidExit(b, 1) && trueLinked && falseLinked then TrimmedBoth(b, c)
       else if ValidExit(b, 0) && falseLinked then TrimmedOne(b, 0, c)
       else if ValidExit(b, 1) && trueLinked then TrimmedOne(b, 1, c)
       else c == b
  }

  ghost predicate TrimmedOne(b: Block, w: nat, c: Block)
    requires Shaped(b) && w < 2
  {
    && b.target[w] / 4 + 1 <= |b.code| && b.target[w] / 4 + 1 + Remain(b, w) <= |b.code|
    && c == Trim(b, w)
  }

  ghost predicate TrimmedBoth(b: Block, c: Block)
    requires Shaped(b)
  {
    exists m: Block :: Shaped(m) && TrimmedOne(b, 0, m) && TrimmedOne(m, 1, c)
  }

  /** Trimming behind the true exit keeps the block well formed if and only if the false exit is not
      behind it. */
  lemma TrimTrue(b: Block)
    requires Wf(b) && ValidExit(b, 1)
    ensures b.target[1] / 4 + 1 <= |b.code| && b.target[1] / 4 + 1 + Remain(b, 1) <= |b.code|
    ensures Wf(Trim(b, 1)) <==> !(ValidExit(b, 0) && b.target[1] < b.target[0])
  {
    RemainFits(b, 1);
    assert ExitOk(b, 0) && ExitOk(b, 1);
    var p, n := b.target[1] / 4 + 1, Remain(b, 1);
    if ValidExit(b, 0) && b.target[1] < b.target[0] {
      assert Trim(b, 1) == Cut(b, p, n) && Cut(b, p, n).target[0] / 4 == p == |Cut(b, p, n).code|;
      assert !ExitOk(Cut(b, p, n), 0);
    } else if n > 0 {
      CutWf(b, p, n);
    }
  }

  /** Trimming behind the false exit never hurts, nor does it put the false exit behind the true one. */
  lemma TrimFalse(b: Block)
    requires Wf(b) && ValidExit(b, 0)
    ensures b.target[0] / 4 + 1 <= |b.code| && b.target[0] / 4 + 1 + Remain(b, 0) <= |b.code|
    ensures var m := Trim(b, 0);
            && Wf(m) && m.reset == b.reset
            && (ValidExit(b, 1) ==> (m.target[1] < m.target[0] <==> b.target[1] < b.target[0]))
  {
    TrimWf(b, 0);
    assert ExitOk(b, 0) && ExitOk(b, 1);
  }

  /** The true exit's tail is removed with the false exit in it. */
  ghost predicate LosesExit(b: Block, trueLinked: bool)
    requires Shaped(b)
  {
    trueLinked && ValidExit(b, 0) && ValidExit(b, 1) && b.target[1] < b.target[0]
  }

  /** visit */
  method Visit(tb: TB)
    requires tb.Valid() && Wf(tb.View())
    modifies tb`rels, tb`relsValid, tb`jmpTarget, tb`bInsns, tb`bneInsns, tb`otherBInsns, tb.insns, tb.insns.Repr
    ensures tb.Valid() && tb.insns.Repr == old(tb.insns.Repr)
    ensures Trimmed(old(tb.View()), tb.trueBranch != null, tb.falseBranch != null, tb.View())
    ensures Wf(tb.View()) <==> !LosesExit(old(tb.View()), tb.trueBranch != null)
  {
    hide *;
    ghost var b := tb.View();
    OpenTb(tb);
    if tb.jmpReset[0] != INVALID && tb.jmpReset[1] != INVALID && tb.trueBranch != null && tb.falseBranch != null {
      TrimFalse(b);
      RemoveTailOf(tb, 0);
      ghost var m := tb.View();
      OpenTb(tb);
      TrimTrue(m);
      RemoveTailOf(tb, 1);
      CloseBoth(b, m, tb.View());
    } else if tb.jmpReset[0] != INVALID && tb.falseBranch != null {
      TrimFalse(b);
      RemoveTailOf(tb, 0);
      CloseOne(b, 0, tb.trueBranch != null, tb.falseBranch != null, tb.View());
    } else if tb.jmpReset[1] != INVALID && tb.trueBranch != null {
      TrimTrue(b);
      RemoveTailOf(tb, 1);
      CloseOne(b, 1, tb.trueBranch != null, tb.falseBranch != null, tb.View());
    } else {
      CloseNone(b, tb.trueBranch != null, tb.falseBranch != null);
    }
    TrimmedWf(b, tb.trueBranch != null, tb.falseBranch != null, tb.View());
  }

  /** Tail removal keeps a block well formed exactly if it does not delete the false exit. */
  lemma TrimmedWf(b: Block, trueLinked: bool, falseLinked: bool, c: Block)
    requires Wf(b) && Trimmed(b, trueLinked, falseLinked, c)
    ensures Shaped(b) && (Wf(c) <==> !LosesExit(b, trueLinked))
  {
    hide Wf, Trim, Remain;
    if ValidExit(b, 0) && ValidExit(b, 1) && trueLinked && falseLinked {
      var m :| Shaped(m) && TrimmedOne(b, 0, m) && TrimmedOne(m, 1, c);
      TrimFalse(b);
      TrimTrue(m);
    } else if ValidExit(b, 0) && falseLinked {
      TrimFalse(b);
    } else if ValidExit(b, 1) && trueLinked {
      TrimTrue(b);
    }
  }

  lemma OpenTb(tb: TB)
    requires tb.Valid() && Wf(tb.View())
    ensures |tb.jmpReset| == 2 == |tb.jmpTarget| && tb.View().reset == tb.jmpReset && tb.View().target == tb.jmpTarget
    ensures ValidExit(tb.View(), 0) == (tb.jmpReset[0] != INVALID)
    ensures ValidExit(tb.View(), 1) == (tb.jmpReset[1] != INVALID)
  {
  }

  lemma CloseBoth(b: Block, m: Block, c: Block)
    requires Shaped(b) && ValidExit(b, 0) && ValidExit(b, 1) && Shaped(m)
    requires b.target[0] / 4 + 1 <= |b.code| && b.target[0] / 4 + 1 + Remain(b, 0) <= |b.code| && m == Trim(b, 0)
    requires m.target[1] / 4 + 1 <= |m.code| && m.target[1] / 4 + 1 + Remain(m, 1) <= |m.code| && c == Trim(m, 1)
    ensures Trimmed(b, true, true, c)
  {
    assert TrimmedOne(b, 0, m) && TrimmedOne(m, 1, c);
  }

  lemma CloseOne(b: Block, w: nat, trueLinked: bool, falseLinked: bool, c: Block)
    requires Shaped(b) && w < 2 && ValidExit(b, w) && (if w == 1 then trueLinked else falseLinked)
    requires !(ValidExit(b, 0) && ValidExit(b, 1) && trueLinked && falseLinked)
    requires w == 1 ==> !(ValidExit(b, 0) && falseLinked)
    requires b.target[w] / 4 + 1 <= |b.code| && b.target[w] / 4 + 1 + Remain(b, w) <= |b.code| && c == Trim(b, w)
    ensures Trimmed(b, trueLinked, falseLinked, c)
  {
  }

  lemma CloseNone(b: Block, trueLinked: bool, falseLinked: bool)
    requires Shaped(b) && !(ValidExit(b, 0) && falseLinked) && !(ValidExit(b, 1) && trueLinked)
    ensures Trimmed(b, trueLinked, falseLinked, b)
  {
  }

  /** Deleted positions when both tails go: everything between the exits and behind the true one. */
  predicate InTails(b: Block, q: nat)
    requires Shaped(b)
  {
    b.target[0] / 4 < q < b.target[1] / 4 || b.target[1] / 4 < q < |b.code|
  }

  ghost predicate TouchesTails(b: Block, r: Rel)
    requires Shaped(b)
  {
    exists q :: 0 <= q < |b.code| && InTails(b, q) && Covers(r, q)
  }

  lemma OverlapTouches(b: Block, r: Rel, p: nat, n: nat)
    requires Shaped(b) && RelFits(r, |b.code|) && p + n <= |b.code|
    ensures Overlaps(r, p, n) <==> exists q :: p <= q < p + n && Covers(r, q)
  {
    if Overlaps(r, p, n) {
      var q := if r.tcOffset / 4 < p then p else r.tcOffset / 4;
      assert p <= q < p + n && Covers(r, q);
    }
  }

  /** The exact result with both successors linked and the false exit first: the code is the old
      code through the false exit, then only the true exit, which now comes directly behind;
      a relocation stays live exactly if it touches no deleted instruction. */
  lemma BothTails(b: Block, c: Block)
    requires Wf(b) && ValidExit(b, 0) && ValidExit(b, 1) && b.target[0] < b.target[1] && TrimmedBoth(b, c)
    ensures Wf(c) && c.reset == b.reset
    ensures b.target[1] / 4 < |b.code|
    ensures c.code == b.code[..b.target[0] / 4 + 1] + [b.code[b.target[1] / 4]]
    ensures c.target[0] == b.target[0] && c.target[1] == c.target[0] + 4
    ensures c.code[c.target[0] / 4] == b.code[b.target[0] / 4] && c.code[c.target[1] / 4] == b.code[b.target[1] / 4]
    ensures |c.live| == |b.live|
    ensures forall j :: 0 <= j < |b.rels| ==> (c.live[j] <==> b.live[j] && !TouchesTails(b, b.rels[j]))
  {
    hide RelsFit, RelsApart, BranchExact, TouchesTails, Trim, Remain;
    var m :| Shaped(m) && TrimmedOne(b, 0, m) && TrimmedOne(m, 1, c);
    ExitsOrdered(b);
    TrimWf(b, 0);
    TrimWf(m, 1);
    BothCode(b, m, c);
    forall j | 0 <= j < |b.rels|
      ensures c.live[j] <==> b.live[j] && !TouchesTails(b, b.rels[j])
    {
      BothLive(b, m, c, j);
    }
  }

  lemma BothCode(b: Block, m: Block, c: Block)
    requires Wf(b) && Wf(m) && ValidExit(b, 0) && ValidExit(b, 1) && b.target[0] < b.target[1]
    requires TrimmedOne(b, 0, m) && TrimmedOne(m, 1, c) && m.reset == b.reset && m.target[1] == b.target[0] + 4
    requires b.target[1] / 4 < |b.code|
    ensures c.code == b.code[..b.target[0] / 4 + 1] + [b.code[b.target[1] / 4]]
  {
    hide RelsFit, RelsApart, BranchExact, ExitsAligned, ExitOk, Trim, Cut;
    var f, t := b.target[0] / 4, b.target[1] / 4;
    ExitsOrdered(b);
    TrimCode(b, 0);
    TrimCode(m, 1);
    assert m.code == b.code[..f + 1] + b.code[t..];
    assert c.code == m.code[..f + 2];
  }

  lemma ExitsOrdered(b: Block)
    requires Wf(b) && ValidExit(b, 0) && ValidExit(b, 1) && b.target[0] < b.target[1]
    ensures Shaped(b) && BranchExact(b) && b.target[0] / 4 < b.target[1] / 4 < |b.code| && b.target[0] % 4 == 0
  {
    assert ExitOk(b, 0) && ExitOk(b, 1);
  }

  lemma TrimCode(b: Block, w: nat)
    requires Shaped(b) && w < 2 && b.target[w] / 4 + 1 <= |b.code| && b.target[w] / 4 + 1 + Remain(b, w) <= |b.code|
    ensures Remain(b, w) >= 0 ==>
              Trim(b, w).code == b.code[..b.target[w] / 4 + 1] + b.code[b.target[w] / 4 + 1 + Remain(b, w)..]
  {
    if Remain(b, w) == 0 {
      assert b.code[..b.target[w] / 4 + 1] + b.code[b.target[w] / 4 + 1..] == b.code;
    }
  }

  lemma TouchesEither(b: Block, r: Rel)
    requires Shaped(b) && b.target[0] / 4 < b.target[1] / 4 < |b.code|
    ensures TouchesTails(b, r) <==>
              || (exists q :: b.target[0] / 4 < q < b.target[1] / 4 && Covers(r, q))
              || (exists q :: b.target[1] / 4 < q < |b.code| && Covers(r, q))
  {
  }

  /** What trimming does to one live relocation. */
  lemma TrimLive(b: Block, w: nat, j: nat)
    requires Shaped(b) && w < 2 && b.target[w] / 4 + 1 <= |b.code| && j < |b.rels|
    requires Remain(b, w) >= 0 && b.target[w] / 4 + 1 + Remain(b, w) <= |b.code|
    ensures var c, p, n := Trim(b, w), b.target[w] / 4 + 1, Remain(b, w);
            && |c.live| == |b.live| == |c.rels| && |c.code| == |b.code| - n
            && (c.live[j] <==> b.live[j] && !Overlaps(b.rels[j], p, n))
            && (b.live[j] ==> c.rels[j] == if n > 0 then Lowered(b.rels[j], p, n) else b.rels[j])
  {
  }

  /** The true exit's tail seen before and after the false exit's tail is gone. */
  lemma TailLowered(r: Rel, len: nat, f: nat, t: nat)
    requires RelFits(r, len) && f < t < len && !Overlaps(r, f + 1, t - f - 1)
    ensures Overlaps(if t - f - 1 > 0 then Lowered(r, f + 1, t - f - 1) else r, f + 2, len - t - 1) <==>
              Overlaps(r, t + 1, len - t - 1)
  {
  }

  lemma BothLive(b: Block, m: Block, c: Block, j: nat)
    requires Wf(b) && Wf(m) && ValidExit(b, 0) && ValidExit(b, 1) && b.target[0] < b.target[1]
    requires TrimmedOne(b, 0, m) && TrimmedOne(m, 1, c) && m.reset == b.reset && m.target[1] == b.target[0] + 4
    requires b.target[1] / 4 < |b.code| && j < |b.rels|
    ensures |c.live| == |b.live|
    ensures c.live[j] <==> b.live[j] && !TouchesTails(b, b.rels[j])
  {
    hide RelsApart, BranchExact, TouchesTails, Trim, RelFits, Overlaps, Lowered, Covers, ExitOk;
    ExitsOrdered(b);
    var f, t := b.target[0] / 4, b.target[1] / 4;
    var r, n0, n1 := b.rels[j], t - f - 1, |b.code| - t - 1;
    TrimLive(b, 0, j);
    TrimLive(m, 1, j);
    TouchesEither(b, r);
    if b.live[j] {
      assert RelFits(r, |b.code|);
      OverlapTouches(b, r, f + 1, n0);
      OverlapTouches(b, r, t + 1, n1);
      if m.live[j] { TailLowered(r, |b.code|, f, t); }
    }
  }

  /** With only one successor linked, or only one exit valid, only that exit's tail goes. */
  lemma OneTail(b: Block, w: nat, c: Block)
    requires Wf(b) && w < 2 && ValidExit(b, w) && TrimmedOne(b, w, c) && Remain(b, w) >= 0
    requires w == 1 && ValidExit(b, 0) ==> b.target[0] < b.target[1]
    ensures Wf(c) && c.reset == b.reset && c.target[w] == b.target[w]
    ensures var k, e := b.target[w] / 4, b.target[w] / 4 + 1 + Remain(b, w);
            && k < e <= |b.code| && c.code == b.code[..k + 1] + b.code[e..]
            && |c.live| == |b.live|
            && forall j :: 0 <= j < |b.rels| ==>
                 (c.live[j] <==> b.live[j] && forall q :: k < q < e ==> !Covers(b.rels[j], q))
  {
    hide RelsApart, BranchExact;
    TrimWf(b, w);
    var k, n := b.target[w] / 4, Remain(b, w);
    if n == 0 {
      assert b.code == b.code[..k + 1] + b.code[k + 1..];
    }
    forall j | 0 <= j < |b.rels| && b.live[j]
      ensures c.live[j] <==> forall q :: k < q < k + 1 + n ==> !Covers(b.rels[j], q)
    {
      assert RelFits(b.rels[j], |b.code|);
      OverlapTouches(b, b.rels[j], k + 1, n);
    }
  }

  /** The code tail removal leaves, in terms of code and exits alone: behind a linked true exit everything
      goes; behind a linked false exit everything up to the true exit, which is nothing if that one comes
      first, or everything if that one is not valid. */
  lemma TrimmedCode(b: Block, t: bool, f: bool, c: Block)
    requires Wf(b) && Trimmed(b, t, f, c)
    ensures var x, y := b.target[0] / 4, b.target[1] / 4;
            var valid0, valid1 := b.reset[0] != 0xffff, b.reset[1] != 0xffff;
            && (valid0 ==> x < |b.code|) && (valid1 ==> y < |b.code|)
            && c.code == if valid0 && f && valid1 then
                           if x < y then b.code[..x + 1] + (if t then [b.code[y]] else b.code[y..])
                           else if t then b.code[..y + 1] else b.code
                         else if valid0 && f then b.code[..x + 1]
                         else if valid1 && t then b.code[..y + 1]
                         else b.code
  {
    hide RelsFit, RelsApart, BranchExact, Cut, Trim;
    assert ExitOk(b, 0) && ExitOk(b, 1);
    if ValidExit(b, 0) && ValidExit(b, 1) && f && t {
      if b.target[0] < b.target[1] {
        BothTails(b, c);
      } else {
        TrimNone(b);
        TrimCode(b, 1);
      }
    } else if ValidExit(b, 0) && f {
      if Remain(b, 0) < 0 {
        TrimNone(b);
      } else {
        TrimCode(b, 0);
      }
    } else if ValidExit(b, 1) && t {
      TrimCode(b, 1);
    }
  }

  lemma TrimNone(b: Block)
    requires Shaped(b) && b.target[0] / 4 + 1 <= |b.code| && ValidExit(b, 1) && b.target[1] <= b.target[0]
    ensures Remain(b, 0) <= 0 && Trim(b, 0) == b
  {
  }
}
