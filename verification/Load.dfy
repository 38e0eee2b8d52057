/** From the file to a linked graph: loading a block establishes the invariant that every edit keeps,
    and linking loaded blocks gives a graph that the merging walk may be run on. */
module Loads {
  import opened Isa
  import opened Blocks
  import opened LinkLists
  import opened Tbs
  import opened Merge
  import opened Graphs
  import opened Settles

  /** What a block's record and its slice of the relocation table have to satisfy. */
  ghost predicate Loadable(code: seq<Insn>, rels: seq<Rel>, reset: seq<nat>, target: seq<nat>) {
    && |reset| == 2 && |target| == 2 && 4 * |code| < TWO32
    && (forall j :: 0 <= j < |rels| ==> RelFits(rels[j], |code|))
    && (forall j, k :: 0 <= j < k < |rels| ==> Apart(rels[j], rels[k]))
    && (forall w :: 0 <= w < 2 && reset[w] != INVALID ==>
          target[w] % 4 == 0 && target[w] / 4 < |code| && code[target[w] / 4].opc == B)
  }

  /** The driver's steps for one block: the constructor, relocation loading, disassembly.  The block
      is well formed exactly if the input was, and its branch lists are exact in any case. */
  method Load(addr: nat, offsets: seq<nat>, reset: seq<nat>, target: seq<nat>, table: seq<Rel>, start: int, end: int,
              words: seq<nat>, decode: nat -> Insn)
    returns (tb: TB)
    requires |reset| == 2 && |target| == 2 && -TWO64 <= start && -TWO64 <= end && Slice(table, start, end).Some?
    ensures fresh(tb) && fresh(tb.insns) && fresh(tb.insns.Repr) && tb.Valid() && BranchExact(tb.View())
    ensures tb.View().code == seq(|words|, k requires 0 <= k < |words| => decode(words[k]))
    ensures tb.View().rels == Slice(table, start, end).value && tb.View().reset == reset && tb.View().target == target
    ensures forall j :: 0 <= j < |tb.View().live| ==> tb.View().live[j]
    ensures Wf(tb.View()) <==> Loadable(tb.View().code, tb.View().rels, reset, target)
    ensures tb.x86Addr == addr && tb.x86Offset == offsets && tb.trueBranch == null && tb.falseBranch == null
    ensures tb.parents == []
  {
    hide Wf, Loadable, BranchExact;
    tb := new TB(addr, offsets, reset, target);
    tb.AddRels(table, start, end);
    tb.Disassemble(words, decode);
    LoadedWf(tb.View());
  }

  lemma LoadedWf(b: Block)
    requires Shaped(b) && BranchExact(b) && forall j :: 0 <= j < |b.live| ==> b.live[j]
    ensures Wf(b) <==> Loadable(b.code, b.rels, b.reset, b.target)
  {
    if Wf(b) {
      assert ExitOk(b, 0) && ExitOk(b, 1);
      assert forall j :: 0 <= j < |b.rels| ==> b.live[j];
    }
  }

  /** A block as the constructor leaves it: neither relocations nor code yet. */
  ghost predicate Blank(b: Block) {
    && Shaped(b) && b.code == [] && b.rels == [] && b.bs == [] && b.bnes == [] && b.others == [] && ExitsAligned(b)
  }

  /** A block of a segment the driver has come to is well formed and linked as settle_all_tb does it,
      from its own segment's beginning; a block of a later segment is blank and has no links. */
  ghost predicate NodeSettled(b: TB, n: Node<TB>, addrToTb: map<nat, TB>, begins: map<TB, nat>) {
    && |b.x86Offset| == 2 && Shaped(n.block) && |n.succ| == 2
    && if b in begins then
         && Wf(n.block)
         && forall w :: 0 <= w < 2 ==> n.succ[w] == LinkAt(n.block.reset[w], b.x86Offset[w], addrToTb, begins[b])
       else
         Blank(n.block) && n.succ == [None, None]
  }

  ghost predicate AllSettled(p: map<TB, Node<TB>>, addrToTb: map<nat, TB>, begins: map<TB, nat>) {
    forall b :: b in p ==> NodeSettled(b, p[b], addrToTb, begins)
  }

  lemma SettledNode(b: TB, n: Node<TB>, addrToTb: map<nat, TB>, begins: map<TB, nat>)
    requires NodeSettled(b, n, addrToTb, begins)
    ensures NodeOk(n) && forall w :: 0 <= w < 2 && n.succ[w].Some? ==> n.succ[w].value in addrToTb.Values
  {
    hide RelsFit, RelsApart, ExitsAligned;
    if b !in begins { BlankOk(n.block); }
  }

  lemma BlankOk(b: Block)
    requires Blank(b)
    ensures RefsOk(b) && BranchExact(b)
  {
  }

  /** Whenever the driver starts the walk on a segment, the blocks of all segments form a closed graph: an
      exit that is linked is a valid one; and if the code fits 32-bit byte counts the walk may start. */
  lemma SettledSound(p: map<TB, Node<TB>>, order: seq<TB>, addrToTb: map<nat, TB>, begins: map<TB, nat>)
    requires AllSettled(p, addrToTb, begins) && (forall b :: b in addrToTb.Values ==> b in p)
    requires Lists(order, p) && 4 * CodeSize(p, order) < TWO32
    ensures Closed(p) && Sound(p, order, CodeSize(p, order))
  {
    hide Sound, CodeSize, NodeSettled, NodeOk;
    forall a | a in p
      ensures NodeOk(p[a]) && |p[a].succ| == 2
      ensures forall w :: 0 <= w < 2 && p[a].succ[w].Some? ==> p[a].succ[w].value in p
    {
      SettledNode(a, p[a], addrToTb, begins);
      TwoLinks(p[a]);
    }
    FirstSound(p, order);
  }

  lemma TwoLinks(n: Node<TB>)
    requires NodeOk(n)
    ensures |n.succ| == 2
  {
  }

  /** A successor in a later segment is merged before its code is there.  The result is the one that
      merging it afterwards would give if and only if the successor has no code at all. */
  lemma EarlyMerge(d: Block, blank: Block, s: Block, k: nat)
    requires RefsOk(d) && Blank(blank) && RefsOk(s) && k < |d.code|
    ensures Merged(d, blank, k).code == d.code[..k]
    ensures Merged(d, blank, k) == Merged(d, s, k) <==> s.code == []
  {
    assert d.code[..k] + [] == d.code[..k];
    if s.code == [] {
      forall j | 0 <= j < |s.rels|
        ensures !s.live[j]
      {
        assert !RelFits(s.rels[j], 0);
      }
      NothingTaken(s.rels, s.live, k);
    } else {
      assert |Merged(d, s, k).code| > |Merged(d, blank, k).code|;
    }
  }

  lemma {:induction false} NothingTaken(rels: seq<Rel>, live: seq<bool>, k: nat)
    requires |rels| == |live| && forall j :: 0 <= j < |live| ==> !live[j]
    ensures LiveShifted(rels, live, k) == []
  {
    if rels != [] {
      NothingTaken(rels[1..], live[1..], k);
    }
  }

  // ----- unique addresses -----

  /** The address a block is given: the constructor takes the segment's beginning in 32 bits. */
  function X86Addr(segBegin: nat, offset: nat): nat { (offset + segBegin % TWO32) % TWO32 }

  /** The key it is registered under, in 64 bits. */
  function Key(segBegin: nat, offset: nat): nat { (segBegin + offset) % TWO64 }

  function Keys(segBegin: nat, offsets: seq<nat>): set<nat> { set o | o in offsets :: Key(segBegin, o) }

  /** Each block's address is compared with the keys registered before it. */
  predicate Registers(segBegin: nat, offsets: seq<nat>, known: set<nat>) {
    offsets == []
    || var front, last := offsets[..|offsets| - 1], offsets[|offsets| - 1];
       Registers(segBegin, front, known) && X86Addr(segBegin, last) !in known + Keys(segBegin, front)
  }

  /** The loop over a segment's records; ok is false where the original reports an address that is
      already in the map. */
  method Register(segBegin: nat, offsets: seq<nat>, known: set<nat>) returns (ok: bool, keys: set<nat>)
    ensures ok == Registers(segBegin, offsets, known)
    ensures ok ==> keys == known + Keys(segBegin, offsets)
  {
    keys := known;
    for i := 0 to |offsets|
      invariant Registers(segBegin, offsets[..i], known) && keys == known + Keys(segBegin, offsets[..i])
    {
      var front := offsets[..i + 1];
      assert front[..i] == offsets[..i];
      if X86Addr(segBegin, offsets[i]) in keys {
        RegistersFront(segBegin, offsets, known, i + 1);
        return false, keys;
      }
      keys := keys + {Key(segBegin, offsets[i])};
      assert Keys(segBegin, front) == Keys(segBegin, offsets[..i]) + {Key(segBegin, offsets[i])};
    }
    assert offsets[..|offsets|] == offsets;
    ok := true;
  }

  lemma {:induction false} RegistersFront(segBegin: nat, offsets: seq<nat>, known: set<nat>, i: nat)
    requires i <= |offsets|
    ensures Registers(segBegin, offsets, known) ==> Registers(segBegin, offsets[..i], known)
    decreases |offsets|
  {
    if i == |offsets| {
      assert offsets[..i] == offsets;
    } else {
      assert offsets[..|offsets| - 1][..i] == offsets[..i];
      RegistersFront(segBegin, offsets[..|offsets| - 1], known, i);
    }
  }

  /** The sums themselves fit 64 bits. */
  predicate Sums(segBegin: nat, offsets: seq<nat>) { forall i :: 0 <= i < |offsets| ==> segBegin + offsets[i] < TWO64 }

  /** One block's address is another block's key exactly if they have the same address and the other
      lies below 4 GiB. */
  lemma AddressIsKey(segBegin: nat, o: nat, last: nat)
    requires segBegin + o < TWO64
    ensures Key(segBegin, o) == X86Addr(segBegin, last) <==>
              X86Addr(segBegin, o) == X86Addr(segBegin, last) && segBegin + o < TWO32
  {
    AddrIsSum(segBegin, o);
    AddrIsSum(segBegin, last);
  }

  lemma AddrIsSum(segBegin: nat, o: nat)
    ensures X86Addr(segBegin, o) == (segBegin + o) % TWO32
  {
    var q := segBegin / TWO32;
    assert segBegin + o == q * TWO32 + (o + segBegin % TWO32);
  }

  lemma LastIsNew(segBegin: nat, offsets: seq<nat>, last: nat, known: set<nat>)
    requires Sums(segBegin, offsets)
    ensures X86Addr(segBegin, last) !in known + Keys(segBegin, offsets) <==>
              && X86Addr(segBegin, last) !in known
              && forall i :: 0 <= i < |offsets| && X86Addr(segBegin, offsets[i]) == X86Addr(segBegin, last) ==>
                   segBegin + offsets[i] >= TWO32
  {
    hide X86Addr, Key;
    forall i | 0 <= i < |offsets|
      ensures Key(segBegin, offsets[i]) in Keys(segBegin, offsets)
      ensures Key(segBegin, offsets[i]) == X86Addr(segBegin, last) <==>
                X86Addr(segBegin, offsets[i]) == X86Addr(segBegin, last) && segBegin + offsets[i] < TWO32
    {
      AddressIsKey(segBegin, offsets[i], last);
    }
  }

  /** What the check ensures: a segment registers if and only if none of its addresses is a key
      already and, of two blocks with the same address, the earlier one lies at or above 4 GiB. */
  lemma {:induction false} RegistersExact(segBegin: nat, offsets: seq<nat>, known: set<nat>)
    requires Sums(segBegin, offsets)
    ensures Registers(segBegin, offsets, known) <==>
              && (forall i :: 0 <= i < |offsets| ==> X86Addr(segBegin, offsets[i]) !in known)
              && (forall i, j ::
                    0 <= i < j < |offsets| && X86Addr(segBegin, offsets[i]) == X86Addr(segBegin, offsets[j]) ==>
                    segBegin + offsets[i] >= TWO32)
  {
    hide X86Addr, Keys;
    if offsets != [] {
      var n := |offsets| - 1;
      RegistersExact(segBegin, offsets[..n], known);
      LastIsNew(segBegin, offsets[..n], offsets[n], known);
    }
  }

  /** So uniqueness is ensured below 4 GiB, ... */
  lemma RegistersUnique(segBegin: nat, offsets: seq<nat>, known: set<nat>)
    requires forall i :: 0 <= i < |offsets| ==> segBegin + offsets[i] < TWO32
    ensures Registers(segBegin, offsets, known) <==>
              && (forall i :: 0 <= i < |offsets| ==> X86Addr(segBegin, offsets[i]) !in known)
              && (forall i, j :: 0 <= i < j < |offsets| ==>
                    X86Addr(segBegin, offsets[i]) != X86Addr(segBegin, offsets[j]))
  {
    hide X86Addr, Registers;
    RegistersExact(segBegin, offsets, known);
  }

  /** ... and nowhere in a segment that begins there: blocks with the same address register. */
  lemma HighSegmentCollides(segBegin: nat, offsets: seq<nat>, known: set<nat>)
    requires segBegin >= TWO32 && Sums(segBegin, offsets)
    ensures Registers(segBegin, offsets, known) <==>
              forall i :: 0 <= i < |offsets| ==> X86Addr(segBegin, offsets[i]) !in known
    ensures Registers(TWO32, [8, 8], {}) && X86Addr(TWO32, 8) == 8
  {
    RegistersExact(segBegin, offsets, known);
    RegistersExact(TWO32, [8, 8], {});
  }
}
